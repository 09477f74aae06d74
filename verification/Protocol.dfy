/**
  One direction of an established connection as a state machine: the client inside `send`,
  the sender, a network that loses, duplicates and reorders, the receiver and the client
  inside `recv`. One event is one region of the source under its lock.

  The network is the set of everything ever transmitted: any member can be delivered at any
  time, again and again, or never.
 */
module Protocol {
  import opened SequenceWindows
  import opened SendWindowing
  import opened CongestionControl
  import opened OutputSide
  import opened ReceiveWindowing
  import Nagle = NagleSplitter

  /**
    Where the client is in `send`. `rest` are bytes of later turns of the outer loop, `left` those
    of the current turn that the splitter has yet to cut, `segment` one cut but not yet queued.
   */
  datatype Client =
    | Idle
    | Loop(rest: seq<Byte>)
    | Split(left: seq<Byte>, rest: seq<Byte>)
    | Await(segment: seq<Byte>, left: seq<Byte>, rest: seq<Byte>)
    | Futures(rest: seq<Byte>)
  {
    /** Bytes given to `send` and not yet queued as segments. */
    function Unsent(): seq<Byte> {
      match this
      case Idle => []
      case Loop(rest) => rest
      case Split(left, rest) => left + rest
      case Await(segment, left, rest) => segment + left + rest
      case Futures(rest) => rest
    }
  }

  /**
    `given`: bytes passed to `send` so far; `signalled` and `waited`: notified futures and how many
    the client has waited for; `dropped`: a segment has hit the source's drop path.
    `stream`, `cuts` and `accepted` record history and steer nothing: the bytes queued so far, the
    positions at which they were cut, and how many segments the receiver has stored.
   */
  datatype State = State(
    isn: Wire,
    given: seq<Byte>,
    client: Client,
    waited: nat,
    dropped: bool,
    out: Output,
    signalled: seq<nat>,
    stream: seq<Byte>,
    cuts: seq<nat>,
    segments: set<Segment>,
    acks: set<Ack>,
    rcv: Receiver,
    accepted: nat,
    delivered: seq<Byte>)
  {
    function Mtu(): nat {
      out.cc.mtu
    }

    /** Everything the receiver holds or has handed over, in order. */
    function Stored(): seq<Byte> {
      delivered + Unflushed(rcv)
    }
  }

  datatype Event =
    | Call(bytes: seq<Byte>)
    | Return
    | StartTurn
    | CutFull
    | CutSmall
    | PutSmall
    | EndSplit
    | WaitFuture
    | EndTurn
    | Transmit(t: nat)
    | TimeoutRetry(t: nat)
    | DeliverAck(ack: Ack)
    | DeliverSegment(segment: Segment)
    | RollWindow
    | ClientFlush(req: nat)

  /** The listener's SYN-ACK as the sender's worker reads a further copy of it: an acknowledgement (src/newimpl.cpp:280). */
  function Greeting(isn: Wire): Ack {
    Ack(AckNo(isn), WINDOW_SZ)
  }

  /** Both windows start at `isn`, as the handshake leaves them; its SYN-ACK may still be about. */
  predicate Init(s: State) {
    && s.given == [] && s.client == Idle && s.waited == 0 && !s.dropped
    && s.out.snd == Sender(SendWindow(s.isn, 0, 0, WINDOW_SZ), [])
    && s.out.cc == Congestion(WINDOW_SZ, CONGESTION_START_SZ, s.Mtu()) && s.Mtu() > 0
    && s.out.fr.cnt == 0
    && s.signalled == [] && s.stream == [] && s.cuts == [0]
    && s.segments == {} && s.acks <= {Greeting(s.isn)}
    && s.rcv.win == Window(s.isn, 0, WINDOW_SZ) && s.rcv.flushed == 0
    && s.accepted == 0 && s.delivered == []
  }

  function NagleChoice(s: State, left: nat): Nagle.Choice {
    Nagle.Choose(s.Mtu(), s.out.cc.BoundedWinSz(), left)
  }

  predicate Enabled(s: State, e: Event) {
    match e
    case Call(bytes) => s.client.Idle?
    case Return => s.client.Loop? && s.client.rest == []
    case StartTurn => s.client.Loop? && s.client.rest != []
    case CutFull => s.client.Split? && s.client.left != [] && NagleChoice(s, |s.client.left|).FullSegment?
    case CutSmall => s.client.Split? && s.client.left != [] && NagleChoice(s, |s.client.left|).WhenEmpty?
    case PutSmall => s.client.Await? && s.out.snd.win.Empty()
    case EndSplit => s.client.Split? && s.client.left == []
    case WaitFuture => s.client.Futures? && s.waited + 1 < |s.cuts| && s.waited in s.signalled
    case EndTurn => s.client.Futures? && s.waited + 1 >= |s.cuts|
    case Transmit(t) => s.out.snd.IsNextPick(t)
    case TimeoutRetry(t) => t < |s.out.snd.log|
    case DeliverAck(ack) => ack in s.acks
    case DeliverSegment(segment) => segment in s.segments && !Full(s.rcv)
    case RollWindow => Full(s.rcv) && s.rcv.flushed == s.rcv.win.off
    case ClientFlush(req) => true
  }

  /** The bytes one turn of the outer loop hands to the splitter: at most the window's size. */
  function TurnSize(s: State, n: nat): nat {
    var sz := s.out.snd.win.Range().GetSz();
    if 0 <= sz < n then sz else n
  }

  function Enqueue(s: State, data: seq<Byte>, client': Client): State {
    s.(client := client',
       out := s.out.(snd := s.out.snd.Put(data, if |s.cuts| > 0 then |s.cuts| - 1 else 0)),
       stream := s.stream + data,
       cuts := s.cuts + [|s.stream| + |data|])
  }

  /** Queue `data`, or note that the window has no room for it. */
  function PutSegment(s: State, data: seq<Byte>, client': Client): State {
    if s.out.snd.Drops(|data|) then s.(dropped := true) else Enqueue(s, data, client')
  }

  function WireOf(s: State, t: nat): Segment
    requires t < |s.out.snd.log|
  {
    Segment(s.out.snd.log[t].seqno, s.out.snd.log[t].data)
  }

  function Step(s: State, e: Event): State
    requires Enabled(s, e)
  {
    match e
    case Call(bytes) => s.(given := s.given + bytes, client := Loop(bytes))
    case Return => s.(client := Idle)
    case StartTurn =>
      var n := TurnSize(s, |s.client.rest|);
      s.(client := Split(s.client.rest[..n], s.client.rest[n..]))
    case CutFull =>
      PutSegment(s, s.client.left[..s.Mtu()], Split(s.client.left[s.Mtu()..], s.client.rest))
    case CutSmall =>
      var n := NagleChoice(s, |s.client.left|).len;
      s.(client := Await(s.client.left[..n], s.client.left[n..], s.client.rest))
    case PutSmall => PutSegment(s, s.client.segment, Split(s.client.left, s.client.rest))
    case EndSplit => s.(client := Futures(s.client.rest))
    case WaitFuture => s.(waited := s.waited + 1)
    case EndTurn => s.(client := Loop(s.client.rest))
    case Transmit(t) =>
      s.(out := s.out.(snd := s.out.snd.Mark(t, true)), segments := s.segments + {WireOf(s, t)})
    case TimeoutRetry(t) =>
      if s.out.snd.win.InWin(s.out.snd.log[t].seqno) then s.(out := s.out.OnRetry(s.out.snd.log[t].seqno)) else s
    case DeliverAck(ack) =>
      s.(out := s.out.OnAck(ack), signalled := s.signalled + s.out.Notified(ack))
    case DeliverSegment(segment) =>
      var rcv := OnMsg(s.rcv, segment);
      s.(rcv := rcv,
         accepted := if Accepts(s.rcv, segment) then s.accepted + 1 else s.accepted,
         acks := if Full(rcv) then s.acks else s.acks + {AckOf(rcv)})
    case RollWindow =>
      s.(rcv := RollOver(s.rcv), acks := s.acks + {AckOf(RollOver(s.rcv))})
    case ClientFlush(req) =>
      s.(rcv := Flush(s.rcv, req), delivered := s.delivered + FlushData(s.rcv, req))
  }

  /** A finite run. */
  predicate Legal(s: State, events: seq<Event>)
    decreases |events|
  {
    |events| > 0 ==> Enabled(s, events[0]) && Legal(Step(s, events[0]), events[1..])
  }

  function After(s: State, events: seq<Event>): State
    requires Legal(s, events)
    decreases |events|
  {
    if |events| == 0 then s else After(Step(s, events[0]), events[1..])
  }
}
