/** The receiver's window and buffer (src/tcp_proto_input.h). */
module ReceiveWindowing {
  import opened SequenceWindows

  const INPUT_BUF_SZ: nat := 300000

  /** Window, flushed offset and buffer; the offsets never leave the buffer. */
  datatype ReceiverState = ReceiverState(win: Window, flushed: nat, buf: seq<Byte>) {
    predicate Ok() {
      flushed <= win.off <= win.sz <= |buf|
    }
  }

  type Receiver = r: ReceiverState | r.Ok() witness ReceiverState(Window(0, 0, 0), 0, [])

  /** The window is used up: the worker waits for the client to flush it and handles nothing else. */
  predicate Full(r: Receiver) {
    r.win.GetSz() == 0
  }

  predicate Accepts(r: Receiver, g: Segment) {
    r.win.Contains(SegmentWindow(g.seqno, |g.data|)) && g.seqno == r.win.Begin()
  }

  function Overwrite(buf: seq<Byte>, pos: nat, data: seq<Byte>): (buf': seq<Byte>)
    requires pos + |data| <= |buf|
    ensures |buf'| == |buf|
  {
    buf[..pos] + data + buf[pos + |data|..]
  }

  function Store(r: Receiver, g: Segment): Receiver
    requires Accepts(r, g)
  {
    ReceiverState(r.win.Inc(|g.data|), r.flushed, Overwrite(r.buf, r.win.off, g.data))
  }

  /** An acknowledgement carries the last contiguous byte and the room left in the window. */
  function AckOf(r: Receiver): Ack {
    Ack(Trunc(r.win.BeforeBegin()), r.win.GetSz() % 65536)
  }

  /** The receiver after a data segment arrives, before any wait for a full window. */
  function OnMsg(r: Receiver, g: Segment): Receiver {
    if Accepts(r, g) then Store(r, g) else r
  }

  function RollOver(r: Receiver): Receiver {
    ReceiverState(r.win.NextWindow(), 0, r.buf)
  }

  function Unflushed(r: Receiver): seq<Byte> {
    r.buf[r.flushed..r.win.off]
  }

  function FlushSize(r: Receiver, req: nat): nat {
    Min(r.win.off - r.flushed, req)
  }

  function Flush(r: Receiver, req: nat): Receiver {
    r.(flushed := r.flushed + FlushSize(r, req))
  }

  function FlushData(r: Receiver, req: nat): seq<Byte> {
    r.buf[r.flushed..r.flushed + FlushSize(r, req)]
  }

  /** An accepted segment is exactly the next bytes of the stream: it is appended to what waits for the client. */
  lemma StoreAppends(r: Receiver, g: Segment)
    requires Accepts(r, g)
    ensures Unflushed(Store(r, g)) == Unflushed(r) + g.data
    ensures Store(r, g).win.Begin() == r.win.Begin() + |g.data| <= r.win.End()
  {
  }

  /** A flush moves bytes from the buffer to the client, in order and without loss: as many as asked for, or all. */
  lemma FlushMoves(r: Receiver, req: nat)
    ensures FlushData(r, req) + Unflushed(Flush(r, req)) == Unflushed(r)
    ensures |FlushData(r, req)| <= req
    ensures |FlushData(r, req)| == req || Unflushed(Flush(r, req)) == []
    ensures Flush(r, req).win == r.win && Flush(r, req).buf == r.buf
  {
  }

  /** Rolling over a flushed window keeps the next expected position and forgets no byte. */
  lemma RollOverKeepsBegin(r: Receiver)
    requires Full(r) && r.flushed == r.win.off
    ensures RollOver(r).win.Begin() == r.win.Begin()
    ensures Unflushed(RollOver(r)) == Unflushed(r) == []
    ensures AckOf(RollOver(r)).windowSz == r.win.sz % 65536
  {
  }

  /** An acknowledgement tells the sender where the receiver stands and where its window ends. */
  lemma AckDescribesWindow(r: Receiver)
    requires r.win.sz < 65536
    ensures Trunc(AckOf(r).seqno + 1) == Trunc(r.win.Begin())
    ensures Trunc(AckOf(r).seqno + 1 + AckOf(r).windowSz) == Trunc(r.win.End())
    ensures AckOf(r).windowSz == 0 <==> Full(r)
  {
    BeforeBeginIsAckNo(r.win);
    AckNoSucc(r.win.Begin());
    TruncAdd(AckOf(r).seqno + 1, r.win.Begin(), AckOf(r).windowSz);
  }

  /**
    A fitting segment at the expected position is accepted exactly while that position is
    still below 2^32: the comparison of a wire number with an unreduced begin fails ever after.
   */
  lemma AcceptsInOrderIff(r: Receiver, data: seq<Byte>)
    requires r.win.off + |data| <= r.win.sz
    ensures Accepts(r, Segment(Trunc(r.win.Begin()), data)) <==> r.win.Begin() < MODULO
  {
    ContainsAtBegin(r.win, |data|);
  }

  class ReceiverWindowProcessing {
    var win: Window
    var flushedOff: nat
    const buf: array<Byte>

    ghost predicate Valid()
      reads this, buf
    {
      ReceiverState(win, flushedOff, buf[..]).Ok()
    }

    ghost function View(): Receiver
      requires Valid()
      reads this, buf
    {
      ReceiverState(win, flushedOff, buf[..])
    }

    constructor ()
      ensures Valid() && fresh(buf)
      ensures View().win == Window(0, 0, WINDOW_SZ) && View().flushed == 0 && buf.Length == INPUT_BUF_SZ
    {
      win, flushedOff := Window(0, 0, WINDOW_SZ), 0;
      buf := new Byte[INPUT_BUF_SZ](_ => 0);
    }

    method ForceMoveStart(startSeq: Wire)
      requires Valid()
      modifies this
      ensures Valid()
      ensures View() == ReceiverState(Window(startSeq, 0, old(win).sz), 0, old(View()).buf)
    {
      win := Window(startSeq, 0, win.sz);
      flushedOff := 0;
    }

    method PutData(pos: nat, data: seq<Byte>)
      requires pos + |data| <= buf.Length
      modifies buf
      ensures buf[..] == Overwrite(old(buf[..]), pos, data)
    {
      forall i | 0 <= i < |data| {
        buf[pos + i] := data[i];
      }
    }

    /** Handle a data segment up to the point where the acknowledgement leaves or the wait for a full window begins. */
    method OnMessage(g: Segment) returns (ack: Option<Ack>)
      requires Valid()
      modifies this, buf
      ensures Valid()
      ensures View() == OnMsg(old(View()), g)
      ensures ack == if Accepts(old(View()), g) && Full(View()) then None else Some(AckOf(View()))
    {
      if win.Contains(SegmentWindow(g.seqno, |g.data|)) && g.seqno == win.Begin() {
        PutData(win.off, g.data);
        win := win.Inc(|g.data|);
        if win.GetSz() == 0 {
          return None;
        }
      }
      ack := Some(Ack(Trunc(win.BeforeBegin()), win.GetSz() % 65536));
    }

    /** Resume once the client has flushed the full window: start the next one and acknowledge. */
    method OnBufferFlushed() returns (ack: Ack)
      requires Valid() && flushedOff == win.off == win.sz
      modifies this
      ensures Valid()
      ensures View() == RollOver(old(View()))
      ensures ack == AckOf(View())
    {
      win := win.NextWindow();
      flushedOff := 0;
      ack := Ack(Trunc(win.BeforeBegin()), win.GetSz() % 65536);
    }

    /** Hand over the oldest waiting bytes: as many as the client asked for, or all there are. */
    method ClientFlushRequest(req: nat) returns (data: seq<Byte>)
      requires Valid()
      modifies this
      ensures Valid()
      ensures |data| == if req < |old(Unflushed(View()))| then req else |old(Unflushed(View()))|
      ensures old(Unflushed(View())) == data + Unflushed(View())
      ensures View() == Flush(old(View()), req)
      ensures data == FlushData(old(View()), req)
    {
      FlushMoves(View(), req);
      var sz := Min(win.off - flushedOff, req);
      data := buf[flushedOff..flushedOff + sz];
      flushedOff := flushedOff + sz;
    }
  }
}
