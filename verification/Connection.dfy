/** From the handshake to the data protocol: both windows are moved into place (src/newimpl.cpp). */
module Connection {
  import opened SequenceWindows
  import opened SendLog
  import opened SendWindowing
  import opened CongestionControl
  import opened FastRetransmit
  import opened OutputSide
  import opened ReceiveWindowing
  import Handshake
  import Protocol

  /** The sender's worker takes whatever carries the ACK flag as an acknowledgement; a SYN-ACK advertises a full window. */
  function Heard(synAck: Handshake.Message): Ack {
    Ack(synAck.seqno, WINDOW_SZ)
  }

  /** The state of two sockets that have exchanged no data, with `acks` still in the network. */
  function Opened(isn: Wire, out: Output, rcv: Receiver, acks: set<Ack>): Protocol.State {
    Protocol.State(isn, [], Protocol.Idle, 0, false, out, [], [], [0], {}, acks, rcv, 0, [])
  }

  /** The sender and the receiver as the handshake leaves them. */
  function OpenedOutput(start: Wire, mtu: nat, last: Wire): Output {
    Output(Sender(SendWindow(start, 0, 0, WINDOW_SZ), []), Congestion(WINDOW_SZ, CONGESTION_START_SZ, mtu),
           DupCounter(last, 0))
  }

  function OpenedReceiver(start: Wire, buf: seq<Byte>): Receiver
    requires WINDOW_SZ <= |buf|
  {
    ReceiverState(Window(start, 0, WINDOW_SZ), 0, buf)
  }

  /**
    Where the handshake has established the receiver, it has established the sender, and the two windows it
    moves into place, each from its own side's number, make an initial state of the data protocol. The listener's
    SYN-ACK is still in the network, and part of that state.
   */
  lemma EstablishedIsInitial(h: Handshake.System, events: seq<Handshake.Event>, mtu: nat, last: Wire, buf: seq<Byte>)
    requires Handshake.Init(h) && Handshake.Legal(h, events) && Handshake.SafeNonces(h, events)
    requires Handshake.After(h, events).rcv.Established?
    requires mtu > 0 && WINDOW_SZ <= |buf|
    ensures var h' := Handshake.After(h, events);
            var synAck := Handshake.SynAck(h'.recvSeq, h'.recvAckSeq);
            && h'.snd.Established?
            && synAck in h'.net
            && Protocol.Init(Opened((h'.recvSeq + 1) % MODULO, OpenedOutput(h'.snd.start, mtu, last),
                                    OpenedReceiver(h'.rcv.start, buf), {Heard(synAck)}))
  {
    Handshake.Agreement(h, events);
  }

  /** The two sockets in place: fresh ones, moved to the starts of an agreed handshake, are such a state. */
  method Open(sndStart: Wire, rcvStart: Wire, header: nat, mtu: nat)
    returns (out: OutputProcessing, rcv: ReceiverWindowProcessing)
    requires header <= MAX_HEADER && mtu > 0
    ensures out.Valid() && rcv.Valid()
    ensures out.View().snd == Sender(SendWindow(sndStart, 0, 0, 1000), []) && out.View().cc == Congestion(1000, 100, mtu)
    ensures rcv.View().win == Window(rcvStart, 0, 1000) && rcv.View().flushed == 0 && rcv.buf.Length == 300000
    ensures out.window.sent.header == header && out.window.sent.signalled == []
    ensures sndStart == rcvStart <==> Protocol.Init(Opened(rcvStart, out.View(), rcv.View(), {}))
  {
    out := new OutputProcessing(header, mtu);
    rcv := new ReceiverWindowProcessing();
    out.window.ForceMoveStart(sndStart);
    rcv.ForceMoveStart(rcvStart);
  }
}
