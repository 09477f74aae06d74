/** The invariant of every reachable state, and its preservation by every event. */
module ProtocolInvariant {
  import opened SequenceWindows
  import opened SendLog
  import opened SendWindowing
  import opened CongestionControl
  import opened OutputSide
  import opened ReceiveWindowing
  import opened Protocol
  import Nagle = NagleSplitter

  // ---------------------------------------------------------------- parts

  ghost predicate Ordered(cuts: seq<nat>, i: int, j: int)
    requires 0 <= i < |cuts| && 0 <= j < |cuts|
  {
    cuts[i] < cuts[j]
  }

  /** `cuts` are the boundaries of the non-empty segments that make up `stream`. */
  ghost predicate CutsOk(stream: seq<Byte>, cuts: seq<nat>) {
    && |cuts| > 0
    && cuts[0] == 0
    && cuts[|cuts| - 1] == |stream|
    && forall i: int, j: int {:trigger Ordered(cuts, i, j)} :: 0 <= i < j < |cuts| ==> Ordered(cuts, i, j)
  }

  /** `data` is what `stream` holds from position `at` on. */
  ghost predicate Spells(data: seq<Byte>, stream: seq<Byte>, at: nat) {
    at + |data| <= |stream| && forall k :: 0 <= k < |data| ==> data[k] == stream[at + k]
  }

  /** Segment `i` as it appears on the wire. */
  ghost predicate IsWire(g: Segment, isn: Wire, stream: seq<Byte>, cuts: seq<nat>, i: nat) {
    && i + 1 < |cuts|
    && g.seqno == Trunc(isn + cuts[i])
    && cuts[i] + |g.data| == cuts[i + 1]
    && |g.data| > 0
    && Spells(g.data, stream, cuts[i])
  }

  ghost predicate SegmentsOk(isn: Wire, stream: seq<Byte>, cuts: seq<nat>, segments: set<Segment>) {
    forall g :: g in segments ==> exists i: nat :: IsWire(g, isn, stream, cuts, i)
  }

  /** The acknowledgement of the first `j` segments. */
  ghost predicate IsAck(a: Ack, isn: Wire, cuts: seq<nat>, j: nat) {
    j < |cuts| && a.seqno == AckNo(isn + cuts[j])
  }

  /** Every acknowledgement names a boundary of at most `last` and a window between 1 and 1000. */
  ghost predicate AcksOk(isn: Wire, cuts: seq<nat>, last: int, acks: set<Ack>) {
    forall a :: a in acks ==>
      && 1 <= a.windowSz <= WINDOW_SZ
      && exists j: nat :: j <= last && IsAck(a, isn, cuts, j)
  }

  /** Record `r` of a window that starts at `start` holds segment `i`, and a used one is on the wire. */
  ghost predicate RecordPlaced(r: Record, isn: Wire, cuts: seq<nat>, start: nat, i: nat) {
    && i + 1 < |cuts|
    && start + r.off == isn + cuts[i]
    && start + r.End() == isn + cuts[i + 1]
    && r.future == i
  }

  ghost predicate RecordWired(r: Record, isn: Wire, stream: seq<Byte>, cuts: seq<nat>, segments: set<Segment>, i: nat) {
    && IsWire(Segment(r.seqno, r.data), isn, stream, cuts, i)
    && (r.used ==> Segment(r.seqno, r.data) in segments)
  }

  ghost predicate QueuePlaced(log: seq<Record>, isn: Wire, cuts: seq<nat>, start: nat) {
    && |log| < |cuts|
    && forall t: nat :: t < |log| ==> RecordPlaced(log[t], isn, cuts, start, |cuts| - 1 - |log| + t)
  }

  ghost predicate QueueWired(log: seq<Record>, isn: Wire, stream: seq<Byte>, cuts: seq<nat>, segments: set<Segment>) {
    && |log| < |cuts|
    && forall t: nat :: t < |log| ==> RecordWired(log[t], isn, stream, cuts, segments, |cuts| - 1 - |log| + t)
  }

  /** The send window over a queue whose first segment is `w`, with `ak` segments acknowledged. */
  ghost predicate WindowOk(win: SendWindow, isn: Wire, cuts: seq<nat>, w: nat, ak: nat) {
    && w <= ak < |cuts|
    && win.sz == WINDOW_SZ
    && win.off <= win.sentOff <= win.sz
    && win.off < win.sz
    && win.start == isn + cuts[w]
    && win.start + win.off == isn + cuts[ak]
    && win.start + win.sentOff == isn + cuts[|cuts| - 1]
  }

  /**
    The receive window with `rk` segments stored: what it delivered and what it still buffers spell the
    stream. It is the send window that starts at `start`, or has just moved on to the next one.
   */
  ghost predicate ReceiveOk(rcv: Receiver, isn: Wire, stream: seq<Byte>, cuts: seq<nat>, rk: nat, start: nat,
                            delivered: seq<Byte>)
  {
    && rk < |cuts|
    && rcv.win.sz == WINDOW_SZ
    && rcv.win.Begin() == isn + cuts[rk]
    && cuts[rk] <= |stream|
    && isn + |delivered| == rcv.win.start + rcv.flushed
    && Spells(delivered, stream, 0)
    && (forall k :: rcv.flushed <= k < rcv.win.off ==> rcv.buf[k] == stream[rcv.win.start - isn + k])
    && (rcv.win.start == start || (rcv.win.start == start + WINDOW_SZ && rcv.win.off == 0))
  }

  /** Futures are signalled once each, in order, for exactly the acknowledged segments. */
  ghost predicate SignalsOk(signalled: seq<nat>) {
    forall i :: 0 <= i < |signalled| ==> signalled[i] == i
  }

  ghost predicate ControlOk(cc: Congestion) {
    cc.mtu > 0 && 1 <= cc.receiverWin <= WINDOW_SZ && cc.congestionWin >= 1
  }

  ghost predicate IsMtuLong(cuts: seq<nat>, i: nat, mtu: nat)
    requires i + 1 < |cuts|
  {
    cuts[i + 1] == cuts[i] + mtu
  }

  /** All segments after `ak` are one MTU long. */
  ghost predicate NagleOk(cuts: seq<nat>, ak: nat, mtu: nat) {
    forall i: nat :: ak < i < |cuts| - 1 ==> IsMtuLong(cuts, i, mtu)
  }

  ghost predicate IsMtuBound(cuts: seq<nat>, i: nat, mtu: nat)
    requires i + 1 < |cuts|
  {
    cuts[i + 1] <= cuts[i] + mtu
  }

  /** No segment is longer than the MTU. */
  ghost predicate SizesOk(cuts: seq<nat>, mtu: nat) {
    forall i: nat :: i < |cuts| - 1 ==> IsMtuBound(cuts, i, mtu)
  }

  lemma SizesGrow(cuts: seq<nat>, mtu: nat, c: nat)
    requires SizesOk(cuts, mtu) && |cuts| > 0 && c <= cuts[|cuts| - 1] + mtu
    ensures SizesOk(cuts + [c], mtu)
  {
    forall i: nat | i < |cuts|
      ensures IsMtuBound(cuts + [c], i, mtu)
    {
      if i < |cuts| - 1 {
        assert IsMtuBound(cuts, i, mtu);
      }
    }
  }

  lemma NagleGrows(cuts: seq<nat>, ak: nat, mtu: nat, c: nat)
    requires NagleOk(cuts, ak, mtu) && |cuts| > 0
    requires c == cuts[|cuts| - 1] + mtu || ak == |cuts| - 1
    ensures NagleOk(cuts + [c], ak, mtu)
  {
    forall i: nat | ak < i < |cuts|
      ensures IsMtuLong(cuts + [c], i, mtu)
    {
      if i < |cuts| - 1 {
        assert IsMtuLong(cuts, i, mtu);
      }
    }
  }

  /** While `n` bytes of a turn are yet to be queued they fit the window, and its records are of this turn. */
  ghost predicate TurnOk(n: nat, win: SendWindow, w: int, waited: nat) {
    n > 0 ==> win.sentOff + n <= win.sz && w <= waited
  }

  ghost predicate ClientOk(client: Client, win: SendWindow, cuts: seq<nat>, w: int, waited: nat, mtu: nat) {
    match client
    case Idle => waited == |cuts| - 1
    case Loop(rest) => waited == |cuts| - 1
    case Split(left, rest) => TurnOk(|left|, win, w, waited)
    case Await(segment, left, rest) =>
      0 < |segment| <= mtu && TurnOk(|segment| + |left|, win, w, waited)
    case Futures(rest) => true
  }

  // ---------------------------------------------------------------- the whole

  /** Segments queued, acknowledged, and queued before the current window. */
  function Queued(s: State): int {
    |s.cuts| - 1
  }

  function Acked(s: State): nat {
    |s.signalled|
  }

  function First(s: State): int {
    |s.cuts| - 1 - |s.out.snd.log|
  }

  /** The segments the receiver may have acknowledged: not the one that has just filled its window. */
  function Acknowledgeable(s: State): int {
    if Full(s.rcv) then s.accepted - 1 else s.accepted
  }

  /** No segment exceeds the MTU or the window. */
  function LongestSegment(s: State): nat {
    Min(s.Mtu(), WINDOW_SZ)
  }

  /** What is on the wire and at the receiver. */
  ghost predicate NetworkInv(s: State) {
    && CutsOk(s.stream, s.cuts)
    && SegmentsOk(s.isn, s.stream, s.cuts, s.segments)
    && AcksOk(s.isn, s.cuts, Acknowledgeable(s), s.acks)
    && ReceiveOk(s.rcv, s.isn, s.stream, s.cuts, s.accepted, s.out.snd.win.start, s.delivered)
    && s.rcv.win.Begin() < MODULO + LongestSegment(s)
  }

  /** The sender's window, queue and futures. */
  ghost predicate QueueInv(s: State) {
    && QueuePlaced(s.out.snd.log, s.isn, s.cuts, s.out.snd.win.start)
    && QueueWired(s.out.snd.log, s.isn, s.stream, s.cuts, s.segments)
    && WindowOk(s.out.snd.win, s.isn, s.cuts, First(s), Acked(s))
    && Acked(s) <= Acknowledgeable(s)
    && SignalsOk(s.signalled)
    && NagleOk(s.cuts, Acked(s), s.Mtu())
    && SizesOk(s.cuts, s.Mtu())
  }

  /** The client inside `send` and the controllers. */
  ghost predicate CallInv(s: State) {
    && s.given == s.stream + s.client.Unsent()
    && s.waited <= Acked(s)
    && ControlOk(s.out.cc)
    && ClientOk(s.client, s.out.snd.win, s.cuts, First(s), s.waited, s.Mtu())
    && !s.dropped
  }

  ghost predicate Inv(s: State) {
    NetworkInv(s) && QueueInv(s) && CallInv(s)
  }

  lemma InitInv(s: State)
    requires Init(s)
    ensures Inv(s)
  {
    assert IsAck(Greeting(s.isn), s.isn, s.cuts, 0);
  }

  // ---------------------------------------------------------------- facts about the parts

  lemma IsWireGrows(g: Segment, isn: Wire, stream: seq<Byte>, cuts: seq<nat>, i: nat, data: seq<Byte>)
    requires IsWire(g, isn, stream, cuts, i)
    ensures IsWire(g, isn, stream + data, cuts + [|stream| + |data|], i)
  {
  }

  lemma SegmentsGrow(isn: Wire, stream: seq<Byte>, cuts: seq<nat>, segments: set<Segment>, data: seq<Byte>)
    requires SegmentsOk(isn, stream, cuts, segments)
    ensures SegmentsOk(isn, stream + data, cuts + [|stream| + |data|], segments)
  {
    var stream', cuts' := stream + data, cuts + [|stream| + |data|];
    forall g | g in segments
      ensures exists i: nat :: IsWire(g, isn, stream', cuts', i)
    {
      var i: nat :| IsWire(g, isn, stream, cuts, i);
      IsWireGrows(g, isn, stream, cuts, i, data);
    }
  }

  lemma AcksGrow(isn: Wire, cuts: seq<nat>, last: int, acks: set<Ack>, c: nat, last': int)
    requires AcksOk(isn, cuts, last, acks) && last <= last'
    ensures AcksOk(isn, cuts, last', acks)
    ensures AcksOk(isn, cuts + [c], last', acks)
  {
    forall a | a in acks
      ensures exists j: nat :: j <= last' && IsAck(a, isn, cuts, j)
      ensures exists j: nat :: j <= last' && IsAck(a, isn, cuts + [c], j)
    {
      var j: nat :| j <= last && IsAck(a, isn, cuts, j);
      assert j <= last' && IsAck(a, isn, cuts, j) && IsAck(a, isn, cuts + [c], j);
    }
  }

  lemma CutsAppend(stream: seq<Byte>, cuts: seq<nat>, data: seq<Byte>)
    requires CutsOk(stream, cuts) && |data| > 0
    ensures CutsOk(stream + data, cuts + [|stream| + |data|])
  {
    var cuts' := cuts + [|stream| + |data|];
    forall i, j | 0 <= i < j < |cuts'|
      ensures Ordered(cuts', i, j)
    {
      if j < |cuts| {
        assert Ordered(cuts, i, j);
      } else if i < |cuts| - 1 {
        assert Ordered(cuts, i, |cuts| - 1);
      }
    }
  }

  /** Within a stream shorter than 2^32 - 1000 a wire number names one segment. */
  lemma WireIndexUnique(isn: Wire, stream: seq<Byte>, cuts: seq<nat>, i: nat, j: nat)
    requires CutsOk(stream, cuts) && |stream| < MODULO
    requires i < |cuts| && j < |cuts|
    requires Trunc(isn + cuts[i]) == Trunc(isn + cuts[j])
    ensures i == j
  {
    CutBound(stream, cuts, i);
    CutBound(stream, cuts, j);
    LiftUnique(isn, isn + cuts[i]);
    LiftUnique(isn, isn + cuts[j]);
    CutsIncrease(stream, cuts, i, j);
    CutsIncrease(stream, cuts, j, i);
  }

  lemma CutsIncrease(stream: seq<Byte>, cuts: seq<nat>, i: nat, j: nat)
    requires CutsOk(stream, cuts) && i < |cuts| && j < |cuts|
    ensures i < j <==> cuts[i] < cuts[j]
  {
    if i < j {
      assert Ordered(cuts, i, j);
    } else if j < i {
      assert Ordered(cuts, j, i);
    }
  }

  lemma CutBound(stream: seq<Byte>, cuts: seq<nat>, i: nat)
    requires CutsOk(stream, cuts) && i < |cuts|
    ensures cuts[i] <= |stream|
    ensures i < |cuts| - 1 ==> cuts[i] < cuts[i + 1] <= |stream|
  {
    assert i == |cuts| - 1 || Ordered(cuts, i, |cuts| - 1);
    assert i == |cuts| - 1 || Ordered(cuts, i, i + 1);
    assert i + 1 >= |cuts| - 1 || Ordered(cuts, i + 1, |cuts| - 1);
  }

  // ---------------------------------------------------------------- the client inside `send`

  lemma PlacedGrows(log: seq<Record>, isn: Wire, cuts: seq<nat>, start: nat, r: Record)
    requires QueuePlaced(log, isn, cuts, start)
    requires start + r.off == isn + cuts[|cuts| - 1] && r.future == |cuts| - 1
    ensures QueuePlaced(log + [r], isn, cuts + [cuts[|cuts| - 1] + |r.data|], start)
  {
    var log', cuts' := log + [r], cuts + [cuts[|cuts| - 1] + |r.data|];
    forall t: nat | t < |log'|
      ensures RecordPlaced(log'[t], isn, cuts', start, |cuts'| - 1 - |log'| + t)
    {
      if t < |log| {
        assert RecordPlaced(log[t], isn, cuts, start, |cuts| - 1 - |log| + t);
      }
    }
  }

  lemma WiredGrows(log: seq<Record>, isn: Wire, stream: seq<Byte>, cuts: seq<nat>, segments: set<Segment>, r: Record)
    requires QueueWired(log, isn, stream, cuts, segments)
    requires CutsOk(stream, cuts) && |r.data| > 0
    requires r.seqno == Trunc(isn + |stream|) && !r.used
    ensures QueueWired(log + [r], isn, stream + r.data, cuts + [|stream| + |r.data|], segments)
  {
    var log', stream', cuts' := log + [r], stream + r.data, cuts + [|stream| + |r.data|];
    forall t: nat | t < |log'|
      ensures RecordWired(log'[t], isn, stream', cuts', segments, |cuts'| - 1 - |log'| + t)
    {
      if t < |log| {
        var i := |cuts| - 1 - |log| + t;
        assert RecordWired(log[t], isn, stream, cuts, segments, i);
        IsWireGrows(Segment(log[t].seqno, log[t].data), isn, stream, cuts, i, r.data);
      }
    }
  }

  /** Segment `t` goes on the wire. */
  lemma QueueTransmit(log: seq<Record>, isn: Wire, stream: seq<Byte>, cuts: seq<nat>, segments: set<Segment>, t: nat)
    requires QueueWired(log, isn, stream, cuts, segments) && t < |log|
    requires SegmentsOk(isn, stream, cuts, segments)
    ensures var segments' := segments + {Segment(log[t].seqno, log[t].data)};
            && QueueWired(log[t := log[t].(used := true)], isn, stream, cuts, segments')
            && SegmentsOk(isn, stream, cuts, segments')
  {
    var log', segments' := log[t := log[t].(used := true)], segments + {Segment(log[t].seqno, log[t].data)};
    forall u: nat | u < |log'|
      ensures RecordWired(log'[u], isn, stream, cuts, segments', |cuts| - 1 - |log'| + u)
    {
      assert RecordWired(log[u], isn, stream, cuts, segments, |cuts| - 1 - |log| + u);
    }
    assert RecordWired(log[t], isn, stream, cuts, segments, |cuts| - 1 - |log| + t);
    assert IsWire(Segment(log[t].seqno, log[t].data), isn, stream, cuts, |cuts| - 1 - |log| + t);
  }

  /** Marks do not move records. */
  lemma PlacedMark(log: seq<Record>, isn: Wire, cuts: seq<nat>, start: nat, log': seq<Record>)
    requires QueuePlaced(log, isn, cuts, start)
    requires |log'| == |log| && forall u: nat :: u < |log| ==> log'[u].(used := log[u].used) == log[u]
    ensures QueuePlaced(log', isn, cuts, start)
  {
    forall u: nat | u < |log'|
      ensures RecordPlaced(log'[u], isn, cuts, start, |cuts| - 1 - |log'| + u)
    {
      assert RecordPlaced(log[u], isn, cuts, start, |cuts| - 1 - |log| + u);
      assert log'[u].(used := log[u].used) == log[u];
    }
  }

  lemma ReceiveGrows(rcv: Receiver, isn: Wire, stream: seq<Byte>, cuts: seq<nat>, rk: nat, start: nat,
                     delivered: seq<Byte>, data: seq<Byte>)
    requires ReceiveOk(rcv, isn, stream, cuts, rk, start, delivered)
    ensures ReceiveOk(rcv, isn, stream + data, cuts + [|stream| + |data|], rk, start, delivered)
  {
  }

  lemma PutNetworkInv(s: State, data: seq<Byte>, client': Client)
    requires Inv(s) && |data| > 0
    ensures NetworkInv(Enqueue(s, data, client'))
  {
    CutsAppend(s.stream, s.cuts, data);
    SegmentsGrow(s.isn, s.stream, s.cuts, s.segments, data);
    AcksGrow(s.isn, s.cuts, Acknowledgeable(s), s.acks, |s.stream| + |data|, Acknowledgeable(s));
    ReceiveGrows(s.rcv, s.isn, s.stream, s.cuts, s.accepted, s.out.snd.win.start, s.delivered, data);
  }

  /** The record a put adds to the queue. */
  function NewRecord(s: State, data: seq<Byte>): Record
    requires |s.cuts| > 0
  {
    Record(s.out.snd.win.sentOff, Trunc(s.out.snd.win.SentBegin()), data, false, |s.cuts| - 1)
  }

  lemma PutPlaced(s: State, data: seq<Byte>, client': Client)
    requires |s.cuts| > 0 && QueuePlaced(s.out.snd.log, s.isn, s.cuts, s.out.snd.win.start)
    requires s.cuts[|s.cuts| - 1] == |s.stream| && s.out.snd.win.SentBegin() == s.isn + |s.stream|
    ensures var s' := Enqueue(s, data, client');
            QueuePlaced(s'.out.snd.log, s'.isn, s'.cuts, s'.out.snd.win.start)
  {
    PlacedGrows(s.out.snd.log, s.isn, s.cuts, s.out.snd.win.start, NewRecord(s, data));
  }

  lemma PutWired(s: State, data: seq<Byte>, client': Client)
    requires CutsOk(s.stream, s.cuts) && QueueWired(s.out.snd.log, s.isn, s.stream, s.cuts, s.segments)
    requires |data| > 0 && s.out.snd.win.SentBegin() == s.isn + |s.stream|
    ensures var s' := Enqueue(s, data, client');
            QueueWired(s'.out.snd.log, s'.isn, s'.stream, s'.cuts, s'.segments)
  {
    WiredGrows(s.out.snd.log, s.isn, s.stream, s.cuts, s.segments, NewRecord(s, data));
  }

  lemma PutSized(s: State, data: seq<Byte>, client': Client)
    requires Inv(s) && 0 < |data| <= s.Mtu() && !s.out.snd.Drops(|data|)
    requires |data| == s.Mtu() || Acked(s) == Queued(s)
    ensures var s' := Enqueue(s, data, client');
            && NagleOk(s'.cuts, Acked(s'), s'.Mtu())
            && SizesOk(s'.cuts, s'.Mtu())
            && WindowOk(s'.out.snd.win, s'.isn, s'.cuts, First(s'), Acked(s'))
  {
    NagleGrows(s.cuts, Acked(s), s.Mtu(), |s.stream| + |data|);
    SizesGrow(s.cuts, s.Mtu(), |s.stream| + |data|);
  }

  lemma PutQueueInv(s: State, data: seq<Byte>, client': Client)
    requires Inv(s) && 0 < |data| <= s.Mtu() && !s.out.snd.Drops(|data|)
    requires |data| == s.Mtu() || Acked(s) == Queued(s)
    ensures QueueInv(Enqueue(s, data, client'))
  {
    PutPlaced(s, data, client');
    PutWired(s, data, client');
    PutSized(s, data, client');
  }

  lemma Associative(a: seq<Byte>, b: seq<Byte>, c: seq<Byte>)
    ensures a + (b + c) == a + b + c
  {
  }

  lemma PutCallInv(s: State, data: seq<Byte>, client': Client)
    requires CallInv(s)
    requires s.client.Unsent() == data + client'.Unsent()
    requires client'.Split? && TurnOk(|data| + |client'.left|, s.out.snd.win, First(s), s.waited)
    ensures CallInv(Enqueue(s, data, client'))
  {
    Associative(s.stream, data, client'.Unsent());
  }

  lemma PutInv(s: State, data: seq<Byte>, client': Client)
    requires Inv(s)
    requires 0 < |data| <= s.Mtu() && !s.out.snd.Drops(|data|)
    requires s.client.Unsent() == data + client'.Unsent()
    requires |data| == s.Mtu() || Acked(s) == Queued(s)
    requires client'.Split? && TurnOk(|data| + |client'.left|, s.out.snd.win, First(s), s.waited)
    ensures Inv(Enqueue(s, data, client'))
  {
    PutNetworkInv(s, data, client');
    PutQueueInv(s, data, client');
    PutCallInv(s, data, client');
  }

  lemma CutOff(left: seq<Byte>, n: nat, rest: seq<Byte>)
    requires n <= |left|
    ensures left[..n] + (left[n..] + rest) == left + rest
    ensures left[..n] + left[n..] + rest == left + rest
  {
  }

  lemma CutFullInv(s: State)
    requires Inv(s) && Enabled(s, CutFull)
    ensures Inv(Step(s, CutFull))
  {
    CutOff(s.client.left, s.Mtu(), s.client.rest);
    PutInv(s, s.client.left[..s.Mtu()], Split(s.client.left[s.Mtu()..], s.client.rest));
  }

  /** The client moves on with the same bytes to send. */
  lemma ClientInv(s: State, client': Client)
    requires Inv(s)
    requires client'.Unsent() == s.client.Unsent()
    requires ClientOk(client', s.out.snd.win, s.cuts, First(s), s.waited, s.Mtu())
    ensures Inv(s.(client := client'))
  {
  }

  lemma CutSmallInv(s: State)
    requires Inv(s) && Enabled(s, CutSmall)
    ensures Inv(Step(s, CutSmall))
  {
    var left := s.client.left;
    var n := NagleChoice(s, |left|).len;
    Nagle.TakeBounds(s.Mtu(), s.out.cc.BoundedWinSz(), |left|);
    CutOff(left, n, s.client.rest);
    ClientInv(s, Await(left[..n], left[n..], s.client.rest));
  }

  lemma PutSmallInv(s: State)
    requires Inv(s) && Enabled(s, PutSmall)
    ensures Inv(Step(s, PutSmall))
  {
    assert Acked(s) == Queued(s) by { EmptyMeansAcked(s); }
    var c := s.client;
    assert c.Unsent() == c.segment + Split(c.left, c.rest).Unsent();
    PutInv(s, c.segment, Split(c.left, c.rest));
  }

  /** Nothing is outstanding exactly when every queued segment is acknowledged. */
  lemma EmptyMeansAcked(s: State)
    requires Inv(s)
    ensures s.out.snd.win.Empty() <==> Acked(s) == Queued(s)
    ensures Acked(s) == Queued(s) ==> s.accepted == Queued(s)
  {
    if Acked(s) < Queued(s) {
      assert Ordered(s.cuts, Acked(s), Queued(s));
    }
  }

  lemma TurnFits(s: State)
    requires Inv(s) && Enabled(s, StartTurn)
    ensures var n := TurnSize(s, |s.client.rest|);
            0 < n <= |s.client.rest| && TurnOk(n, s.out.snd.win, First(s), s.waited)
  {
    EmptyMeansAcked(s);
  }

  lemma StartTurnInv(s: State)
    requires Inv(s) && Enabled(s, StartTurn)
    ensures Inv(Step(s, StartTurn))
  {
    var n := TurnSize(s, |s.client.rest|);
    TurnFits(s);
    TakeDrop(s.client.rest, n);
    ClientInv(s, Split(s.client.rest[..n], s.client.rest[n..]));
  }

  lemma TakeDrop(b: seq<Byte>, n: nat)
    requires n <= |b|
    ensures b[..n] + b[n..] == b
  {
  }

  lemma WaitFutureInv(s: State)
    requires Inv(s) && Enabled(s, WaitFuture)
    ensures Inv(Step(s, WaitFuture))
  {
    assert s.waited < Acked(s);
  }

  lemma EndTurnInv(s: State)
    requires Inv(s) && Enabled(s, EndTurn)
    ensures Inv(Step(s, EndTurn))
  {
    ClientInv(s, Loop(s.client.rest));
  }

  lemma ReturnInv(s: State)
    requires Inv(s) && Enabled(s, Return)
    ensures Inv(Step(s, Return))
  {
    ClientInv(s, Idle);
  }

  lemma EndSplitInv(s: State)
    requires Inv(s) && Enabled(s, EndSplit)
    ensures Inv(Step(s, EndSplit))
  {
    assert s.client.Unsent() == s.client.rest;
    ClientInv(s, Futures(s.client.rest));
  }

  lemma CallInvKept(s: State, bytes: seq<Byte>)
    requires Inv(s) && Enabled(s, Call(bytes))
    ensures Inv(Step(s, Call(bytes)))
  {
    assert s.stream + [] + bytes == s.stream + bytes;
  }

  // ---------------------------------------------------------------- the sender's worker

  lemma TransmitInv(s: State, t: nat)
    requires Inv(s) && Enabled(s, Transmit(t))
    ensures Inv(Step(s, Transmit(t)))
  {
    var s' := Step(s, Transmit(t));
    PlacedMark(s.out.snd.log, s.isn, s.cuts, s.out.snd.win.start, s'.out.snd.log);
    QueueTransmit(s.out.snd.log, s.isn, s.stream, s.cuts, s.segments, t);
  }

  lemma WiredRetry(log: seq<Record>, isn: Wire, stream: seq<Byte>, cuts: seq<nat>, segments: set<Segment>,
                   log': seq<Record>)
    requires QueueWired(log, isn, stream, cuts, segments)
    requires |log'| == |log|
    requires forall u: nat :: u < |log| ==> log'[u] == log[u] || log'[u] == log[u].(used := false)
    ensures QueueWired(log', isn, stream, cuts, segments)
  {
    forall u: nat | u < |log'|
      ensures RecordWired(log'[u], isn, stream, cuts, segments, |cuts| - 1 - |log'| + u)
    {
      assert RecordWired(log[u], isn, stream, cuts, segments, |cuts| - 1 - |log| + u);
    }
  }

  /** Making any segment available again, with the controllers in any sane state, keeps the invariant. */
  lemma RetryInv(s: State, off: nat, out': Output)
    requires Inv(s)
    requires out'.snd == s.out.snd.RetryAt(off) || out'.snd == s.out.snd
    requires ControlOk(out'.cc) && out'.cc.mtu == s.Mtu()
    ensures Inv(s.(out := out'))
  {
    PlacedMark(s.out.snd.log, s.isn, s.cuts, s.out.snd.win.start, out'.snd.log);
    WiredRetry(s.out.snd.log, s.isn, s.stream, s.cuts, s.segments, out'.snd.log);
  }

  lemma TimeoutRetryInv(s: State, t: nat)
    requires Inv(s) && Enabled(s, TimeoutRetry(t))
    ensures Inv(Step(s, TimeoutRetry(t)))
  {
    var seqno := s.out.snd.log[t].seqno;
    RetryInv(s, s.out.snd.win.InMsgOff(seqno) + s.out.snd.win.off, s.out.OnRetry(seqno));
  }

  // ---------------------------------------------------------------- the receiver

  /** A segment of the network whose number is the unreduced position `rk` is segment `rk`. */
  lemma OnlySegmentAt(g: Segment, isn: Wire, stream: seq<Byte>, cuts: seq<nat>, segments: set<Segment>, rk: nat)
    requires SegmentsOk(isn, stream, cuts, segments) && CutsOk(stream, cuts) && g in segments
    requires rk < |cuts| && g.seqno == isn + cuts[rk]
    requires |stream| < MODULO
    ensures IsWire(g, isn, stream, cuts, rk)
  {
    var i: nat :| IsWire(g, isn, stream, cuts, i);
    WireIndexUnique(isn, stream, cuts, i, rk);
  }

  /** A segment the receiver accepts is the next one of the stream, and both windows are the same one. */
  lemma AcceptedIsNext(s: State, g: Segment)
    requires Inv(s) && g in s.segments && g.seqno == s.rcv.win.Begin()
    requires |s.stream| + WINDOW_SZ < MODULO
    ensures IsWire(g, s.isn, s.stream, s.cuts, s.accepted)
    ensures s.rcv.win.start == s.out.snd.win.start
  {
    OnlySegmentAt(g, s.isn, s.stream, s.cuts, s.segments, s.accepted);
    assert Ordered(s.cuts, s.accepted, Queued(s));
  }

  lemma AcksAdd(isn: Wire, cuts: seq<nat>, last: int, acks: set<Ack>, a: Ack)
    requires AcksOk(isn, cuts, last, acks)
    requires 1 <= a.windowSz <= WINDOW_SZ && 0 <= last && IsAck(a, isn, cuts, last)
    ensures AcksOk(isn, cuts, last, acks + {a})
  {
  }

  lemma OwnAck(rcv: Receiver, isn: Wire, stream: seq<Byte>, cuts: seq<nat>, rk: nat, start: nat, delivered: seq<Byte>)
    requires ReceiveOk(rcv, isn, stream, cuts, rk, start, delivered) && !Full(rcv)
    ensures 1 <= AckOf(rcv).windowSz <= WINDOW_SZ && IsAck(AckOf(rcv), isn, cuts, rk)
  {
    BeforeBeginIsAckNo(rcv.win);
  }

  /** Storing segment `rk` takes the receive window from `rk` to `rk + 1`. */
  lemma ReceiveStores(rcv: Receiver, g: Segment, isn: Wire, stream: seq<Byte>, cuts: seq<nat>, rk: nat, start: nat,
                      delivered: seq<Byte>)
    requires ReceiveOk(rcv, isn, stream, cuts, rk, start, delivered)
    requires Accepts(rcv, g) && rcv.win.start == start
    requires rk + 1 < |cuts| && cuts[rk] + |g.data| == cuts[rk + 1] && Spells(g.data, stream, cuts[rk])
    ensures ReceiveOk(Store(rcv, g), isn, stream, cuts, rk + 1, start, delivered)
  {
  }

  /** An event that touches only the receiver and its acknowledgements keeps the sender's part of the invariant. */
  lemma ReceiverInv(s: State, s': State)
    requires Inv(s)
    requires s' == s.(rcv := s'.rcv, accepted := s'.accepted, acks := s'.acks, delivered := s'.delivered)
    requires ReceiveOk(s'.rcv, s.isn, s.stream, s.cuts, s'.accepted, s.out.snd.win.start, s'.delivered)
    requires AcksOk(s.isn, s.cuts, Acknowledgeable(s'), s'.acks)
    requires Acknowledgeable(s) <= Acknowledgeable(s')
    requires s'.rcv.win.Begin() < MODULO + LongestSegment(s)
    ensures Inv(s')
  {
  }

  lemma AcksAfter(s: State, s': State)
    requires Inv(s)
    requires ReceiveOk(s'.rcv, s.isn, s.stream, s.cuts, s'.accepted, s.out.snd.win.start, s'.delivered)
    requires Acknowledgeable(s) <= Acknowledgeable(s')
    requires s'.acks == if Full(s'.rcv) then s.acks else s.acks + {AckOf(s'.rcv)}
    ensures AcksOk(s.isn, s.cuts, Acknowledgeable(s'), s'.acks)
  {
    AcksGrow(s.isn, s.cuts, Acknowledgeable(s), s.acks, 0, Acknowledgeable(s'));
    if !Full(s'.rcv) {
      OwnAck(s'.rcv, s.isn, s.stream, s.cuts, s'.accepted, s.out.snd.win.start, s'.delivered);
      AcksAdd(s.isn, s.cuts, s'.accepted, s.acks, AckOf(s'.rcv));
    }
  }

  /** An accepted segment leaves the receiver one segment further. */
  lemma AcceptReceives(s: State, g: Segment)
    requires Inv(s) && g in s.segments && Accepts(s.rcv, g)
    requires |s.stream| + WINDOW_SZ < MODULO
    ensures ReceiveOk(Store(s.rcv, g), s.isn, s.stream, s.cuts, s.accepted + 1, s.out.snd.win.start, s.delivered)
    ensures Store(s.rcv, g).win.Begin() < MODULO + LongestSegment(s)
  {
    AcceptedIsNext(s, g);
    assert IsMtuBound(s.cuts, s.accepted, s.Mtu());
    ReceiveStores(s.rcv, g, s.isn, s.stream, s.cuts, s.accepted, s.out.snd.win.start, s.delivered);
  }

  lemma DeliverSegmentInv(s: State, g: Segment)
    requires Inv(s) && Enabled(s, DeliverSegment(g))
    requires |s.stream| + WINDOW_SZ < MODULO
    ensures Inv(Step(s, DeliverSegment(g)))
  {
    var s' := Step(s, DeliverSegment(g));
    if Accepts(s.rcv, g) {
      AcceptReceives(s, g);
    }
    AcksAfter(s, s');
    ReceiverInv(s, s');
  }

  lemma RollWindowInv(s: State)
    requires Inv(s) && Enabled(s, RollWindow)
    ensures Inv(Step(s, RollWindow))
  {
    var s' := Step(s, RollWindow);
    RollOverKeepsBegin(s.rcv);
    AcksAfter(s, s');
    ReceiverInv(s, s');
  }

  lemma ClientFlushInv(s: State, req: nat)
    requires Inv(s)
    ensures Inv(Step(s, ClientFlush(req)))
  {
    var s' := Step(s, ClientFlush(req));
    ReceiverInv(s, s');
  }

  // ---------------------------------------------------------------- acknowledgements

  lemma PlacedIsLogOk(log: seq<Record>, isn: Wire, stream: seq<Byte>, cuts: seq<nat>, start: nat)
    requires QueuePlaced(log, isn, cuts, start) && CutsOk(stream, cuts)
    requires start == isn + cuts[|cuts| - 1 - |log|]
    ensures LogOk(log)
  {
    var w := |cuts| - 1 - |log|;
    forall t: nat | t < |log|
      ensures start + log[t].off == isn + cuts[w + t] && start + log[t].End() == isn + cuts[w + t + 1]
      ensures |log[t].data| > 0
    {
      assert RecordPlaced(log[t], isn, cuts, start, w + t);
      assert Ordered(cuts, w + t, w + t + 1);
    }
    forall i: nat, j: nat | i < j < |log|
      ensures Before(log, i, j)
    {
      assert i + 1 == j || Ordered(cuts, w + i + 1, w + j);
    }
  }

  /** Segment `t` of the queue starts where the stream is cut. */
  lemma PlacedOffAt(log: seq<Record>, isn: Wire, cuts: seq<nat>, start: nat, t: nat)
    requires QueuePlaced(log, isn, cuts, start) && t <= |log|
    requires start == isn + cuts[|cuts| - 1 - |log|]
    ensures start + OffAt(log, t) == isn + cuts[|cuts| - 1 - |log| + t]
  {
    if t < |log| {
      assert RecordPlaced(log[t], isn, cuts, start, |cuts| - 1 - |log| + t);
    } else if t > 0 {
      assert RecordPlaced(log[t - 1], isn, cuts, start, |cuts| - 1 - |log| + t - 1);
    }
  }

  lemma QueueSeqnos(log: seq<Record>, isn: Wire, stream: seq<Byte>, cuts: seq<nat>, segments: set<Segment>, start: nat)
    requires QueuePlaced(log, isn, cuts, start) && QueueWired(log, isn, stream, cuts, segments)
    ensures forall t :: 0 <= t < |log| ==> log[t].seqno == Trunc(start + log[t].off)
  {
    forall t: nat | t < |log|
      ensures log[t].seqno == Trunc(start + log[t].off)
    {
      assert RecordPlaced(log[t], isn, cuts, start, |cuts| - 1 - |log| + t);
      assert RecordWired(log[t], isn, stream, cuts, segments, |cuts| - 1 - |log| + t);
    }
  }

  lemma PlacedIsWindow(win: SendWindow, log: seq<Record>, isn: Wire, stream: seq<Byte>, cuts: seq<nat>, ak: nat)
    requires QueuePlaced(log, isn, cuts, win.start) && CutsOk(stream, cuts)
    requires WindowOk(win, isn, cuts, |cuts| - 1 - |log|, ak)
    ensures LogOk(log)
    ensures win.off == OffAt(log, ak - (|cuts| - 1 - |log|)) && win.sentOff == Total(log)
  {
    PlacedIsLogOk(log, isn, stream, cuts, win.start);
    PlacedOffAt(log, isn, cuts, win.start, ak - (|cuts| - 1 - |log|));
    PlacedOffAt(log, isn, cuts, win.start, |log|);
  }

  /** The queue of the invariant is the queue the send window works on. */
  lemma QueueIsSender(s: State)
    requires Inv(s)
    ensures SenderOk(s.out.snd, Acked(s) - First(s))
  {
    PlacedIsWindow(s.out.snd.win, s.out.snd.log, s.isn, s.stream, s.cuts, Acked(s));
    QueueSeqnos(s.out.snd.log, s.isn, s.stream, s.cuts, s.segments, s.out.snd.win.start);
  }

  /** An acknowledgement in the network names a boundary the receiver has reached, wherever it is delivered. */
  lemma AckIndex(s: State, ack: Ack) returns (j: nat)
    requires Inv(s) && ack in s.acks
    ensures j <= Acknowledgeable(s) && IsAck(ack, s.isn, s.cuts, j)
  {
    j :| j <= Acknowledgeable(s) && IsAck(ack, s.isn, s.cuts, j);
  }

  lemma AckRange(s: State, j: nat)
    requires Inv(s) && j <= Acknowledgeable(s)
    ensures s.cuts[j] <= |s.stream| && s.cuts[First(s)] <= |s.stream|
    ensures s.out.snd.win.Begin() < s.isn + s.cuts[j] <==> Acked(s) < j
  {
    CutBound(s.stream, s.cuts, j);
    CutBound(s.stream, s.cuts, First(s));
    CutsIncrease(s.stream, s.cuts, Acked(s), j);
  }

  lemma FuturesCount(log: seq<Record>, isn: Wire, cuts: seq<nat>, start: nat, signalled: seq<nat>, j: nat)
    requires QueuePlaced(log, isn, cuts, start) && SignalsOk(signalled)
    requires |cuts| - 1 - |log| <= |signalled| < j < |cuts|
    ensures var w := |cuts| - 1 - |log|;
            var fs := FuturesOf(log, |signalled| - w, j - w);
            |fs| == j - |signalled| && SignalsOk(signalled + fs)
  {
    var w := |cuts| - 1 - |log|;
    forall t: nat | t < |log|
      ensures log[t].future == w + t
    {
      assert RecordPlaced(log[t], isn, cuts, start, w + t);
    }
  }

  lemma PlacedRelease(log: seq<Record>, isn: Wire, stream: seq<Byte>, cuts: seq<nat>, start: nat, a: nat, b: nat)
    requires QueuePlaced(log, isn, cuts, start) && CutsOk(stream, cuts)
    requires a <= b <= |log|
    requires start == isn + cuts[|cuts| - 1 - |log|]
    ensures var w := |cuts| - 1 - |log|;
            && isn + cuts[w + a] >= start && isn + cuts[w + b] >= start
            && ReleasedFutures(log, isn + cuts[w + a] - start, isn + cuts[w + b] - start) == FuturesOf(log, a, b)
  {
    PlacedOffAt(log, isn, cuts, start, a);
    PlacedOffAt(log, isn, cuts, start, b);
    PlacedIsLogOk(log, isn, stream, cuts, start);
    ReleasedSlice(log, a, b);
  }

  lemma ReleaseCounts(log: seq<Record>, isn: Wire, stream: seq<Byte>, cuts: seq<nat>, start: nat,
                      signalled: seq<nat>, j: nat)
    requires QueuePlaced(log, isn, cuts, start) && CutsOk(stream, cuts) && SignalsOk(signalled)
    requires |cuts| - 1 - |log| <= |signalled| < j < |cuts|
    requires start == isn + cuts[|cuts| - 1 - |log|]
    requires isn + cuts[|signalled|] >= start && isn + cuts[j] >= start
    ensures var fs := ReleasedFutures(log, isn + cuts[|signalled|] - start, isn + cuts[j] - start);
            |fs| == j - |signalled| && SignalsOk(signalled + fs)
  {
    var w := |cuts| - 1 - |log|;
    PlacedRelease(log, isn, stream, cuts, start, |signalled| - w, j - w);
    FuturesCount(log, isn, cuts, start, signalled, j);
  }

  /** It notifies exactly the futures of the segments it newly covers. */
  lemma AckNotifies(s: State, seqno: Wire, j: nat)
    requires Inv(s) && Acked(s) < j <= Queued(s)
    requires s.out.snd.win.SetOffFromSeq(seqno).off + s.out.snd.win.start == s.isn + s.cuts[j]
    ensures var fs := s.out.snd.Notified(seqno);
            |fs| == j - Acked(s) && SignalsOk(s.signalled + fs)
  {
    ReleaseCounts(s.out.snd.log, s.isn, s.stream, s.cuts, s.out.snd.win.start, s.signalled, j);
  }

  /** When an acknowledgement uses up the send window, everything in it was stored and the receiver has rolled over. */
  lemma WindowUsedUp(s: State, j: nat)
    requires Inv(s) && Acked(s) < j <= Acknowledgeable(s)
    requires s.isn + s.cuts[j] == s.out.snd.win.End()
    ensures j == Queued(s) && s.out.snd.win.sentOff == WINDOW_SZ
    ensures s.rcv.win.start == s.out.snd.win.End()
  {
    CutBound(s.stream, s.cuts, j);
    CutsIncrease(s.stream, s.cuts, j, Queued(s));
    CutsIncrease(s.stream, s.cuts, j, s.accepted);
  }

  /** The send window moves to segment `j` of the same window. */
  lemma AdvanceInv(s: State, j: nat, out': Output, signalled': seq<nat>)
    requires Inv(s) && Acked(s) < j <= Acknowledgeable(s)
    requires s.out.snd.win.start <= s.isn + s.cuts[j] < s.out.snd.win.End()
    requires out'.snd == Sender(s.out.snd.win.(off := s.isn + s.cuts[j] - s.out.snd.win.start), s.out.snd.log)
    requires ControlOk(out'.cc) && out'.cc.mtu == s.Mtu()
    requires SignalsOk(signalled') && |signalled'| == j
    ensures Inv(s.(out := out', signalled := signalled'))
  {
    CutBound(s.stream, s.cuts, j);
    forall i: nat | j < i < |s.cuts| - 1
      ensures IsMtuLong(s.cuts, i, s.Mtu())
    {
    }
  }

  /** The send window gives way to the next one. */
  lemma NextWindowInv(s: State, j: nat, out': Output, signalled': seq<nat>)
    requires Inv(s) && Acked(s) < j <= Acknowledgeable(s)
    requires s.isn + s.cuts[j] == s.out.snd.win.End()
    requires out'.snd == Sender(s.out.snd.win.NextWindow(), [])
    requires ControlOk(out'.cc) && out'.cc.mtu == s.Mtu()
    requires SignalsOk(signalled') && |signalled'| == j
    ensures Inv(s.(out := out', signalled := signalled'))
  {
    WindowUsedUp(s, j);
  }

  lemma AcknowledgeInv(s: State, ack: Ack, j: nat)
    requires Inv(s) && ack in s.acks && s.out.snd.win.InWin(ack.seqno)
    requires Acked(s) < j <= Acknowledgeable(s)
    requires s.out.snd.win.start <= s.isn + s.cuts[j] <= s.out.snd.win.End()
    requires s.out.snd.win.SetOffFromSeq(ack.seqno).off + s.out.snd.win.start == s.isn + s.cuts[j]
    ensures Inv(Step(s, DeliverAck(ack)))
    ensures Acked(Step(s, DeliverAck(ack))) == j
  {
    var out' := s.out.OnAck(ack);
    var signalled' := s.signalled + s.out.Notified(ack);
    AckNotifies(s, ack.seqno, j);
    if s.isn + s.cuts[j] == s.out.snd.win.End() {
      NextWindowInv(s, j, out', signalled');
    } else {
      AdvanceInv(s, j, out', signalled');
    }
  }

  lemma AckOutside(out: Output, ack: Ack)
    requires !out.snd.win.InWin(ack.seqno) && ControlOk(out.cc) && 1 <= ack.windowSz <= WINDOW_SZ
    ensures var out' := out.OnAck(ack);
            && (out'.snd == out.snd.RetryAt(out.snd.win.off) || out'.snd == out.snd)
            && ControlOk(out'.cc) && out'.cc.mtu == out.cc.mtu
    ensures out.Notified(ack) == []
  {
  }

  /** Segment boundary `j` is acknowledged: delivering the acknowledgement takes the sender there, or changes nothing. */
  lemma AckTakesTo(s: State, ack: Ack, j: nat)
    requires Inv(s) && ack in s.acks
    requires j <= Acknowledgeable(s) && IsAck(ack, s.isn, s.cuts, j)
    requires |s.stream| + WINDOW_SZ < MODULO
    ensures var win, pos := s.out.snd.win, s.isn + s.cuts[j];
            && win.InWin(ack.seqno) == (Acked(s) < j && pos <= win.End() && !(pos == win.End() && pos > MODULO))
            && (win.InWin(ack.seqno) ==> win.SetOffFromSeq(ack.seqno).off + win.start == pos)
  {
    AckRange(s, j);
    LandsAt(s.out.snd.win, ack.seqno, s.isn + s.cuts[j], s.isn);
  }

  lemma LandsAt(win: SendWindow, seqno: Wire, pos: nat, isn: Wire)
    requires seqno == AckNo(pos) && isn <= pos && isn <= win.Begin() <= win.End()
    requires pos < isn + MODULO && win.End() < isn + MODULO
    ensures win.InWin(seqno) <==> win.Begin() < pos <= win.End() && !(pos == win.End() && pos > MODULO)
    ensures win.InWin(seqno) ==> win.SetOffFromSeq(seqno).off + win.start == pos
  {
    AckLands(win, pos, isn);
  }

  lemma AckIgnoredInv(s: State, ack: Ack)
    requires Inv(s) && Enabled(s, DeliverAck(ack)) && !s.out.snd.win.InWin(ack.seqno)
    ensures Inv(Step(s, DeliverAck(ack)))
    ensures Acked(Step(s, DeliverAck(ack))) == Acked(s)
  {
    AckOutside(s.out, ack);
    RetryInv(s, s.out.snd.win.off, s.out.OnAck(ack));
    assert s.signalled + [] == s.signalled;
  }

  /** How far an acknowledgement of the first `j` segments takes the sender. */
  lemma AckResult(s: State, ack: Ack, j: nat)
    requires Inv(s) && ack in s.acks
    requires j <= Acknowledgeable(s) && IsAck(ack, s.isn, s.cuts, j)
    requires |s.stream| + WINDOW_SZ < MODULO
    ensures var win, pos := s.out.snd.win, s.isn + s.cuts[j];
            Acked(Step(s, DeliverAck(ack)))
            == if Acked(s) < j && pos <= win.End() && !(pos == win.End() && pos > MODULO) then j else Acked(s)
  {
    AckTakesTo(s, ack, j);
    if s.out.snd.win.InWin(ack.seqno) {
      assert Ordered(s.cuts, Acked(s), j);
      AcknowledgeInv(s, ack, j);
    } else {
      AckIgnoredInv(s, ack);
    }
  }

  lemma DeliverAckInv(s: State, ack: Ack)
    requires Inv(s) && Enabled(s, DeliverAck(ack))
    requires |s.stream| + WINDOW_SZ < MODULO
    ensures Inv(Step(s, DeliverAck(ack)))
  {
    if s.out.snd.win.InWin(ack.seqno) {
      var j := AckIndex(s, ack);
      AckTakesTo(s, ack, j);
      assert Ordered(s.cuts, Acked(s), j);
      AcknowledgeInv(s, ack, j);
    } else {
      AckIgnoredInv(s, ack);
    }
  }

  /** Every event keeps the invariant as long as fewer than 2^32 - 1000 bytes have been given to `send`. */
  lemma StepInv(s: State, e: Event)
    requires Inv(s) && Enabled(s, e)
    requires |s.given| + WINDOW_SZ < MODULO
    ensures Inv(Step(s, e))
  {
    match e
    case StartTurn => StartTurnInv(s);
    case CutFull => CutFullInv(s);
    case CutSmall => CutSmallInv(s);
    case PutSmall => PutSmallInv(s);
    case WaitFuture => WaitFutureInv(s);
    case EndTurn => EndTurnInv(s);
    case Transmit(t) => TransmitInv(s, t);
    case TimeoutRetry(t) => TimeoutRetryInv(s, t);
    case DeliverAck(ack) => DeliverAckInv(s, ack);
    case DeliverSegment(g) => DeliverSegmentInv(s, g);
    case RollWindow => RollWindowInv(s);
    case ClientFlush(req) => ClientFlushInv(s, req);
    case Call(bytes) => CallInvKept(s, bytes);
    case Return => ReturnInv(s);
    case EndSplit => EndSplitInv(s);
  }
}
