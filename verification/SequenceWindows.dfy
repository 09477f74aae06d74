/**
  Sequence numbers and windows (src/tcp_proto_internal.h).

  A window keeps an unreduced position `start + off`; the wire carries 32-bit numbers.
  `Lift` says which unreduced position a wire number means for a window, and the
  lemmas below relate the comparisons of the code to it.
 */
module SequenceWindows {

  const MODULO: nat := 0x1_0000_0000
  const WINDOW_SZ: nat := 1000

  type Byte = x: int | 0 <= x < 256

  /** A 32-bit wire sequence number. */
  type Wire = x: nat | x < MODULO

  /** What travels to the receiver and what travels back. */
  datatype Segment = Segment(seqno: Wire, data: seq<Byte>)
  datatype Ack = Ack(seqno: Wire, windowSz: nat)

  datatype Option<+T> = None | Some(value: T)

  function Min(a: nat, b: nat): nat {
    if a <= b then a else b
  }

  /** The conversion of a 64-bit position to a wire number. */
  function Trunc(x: nat): Wire {
    x % MODULO
  }

  datatype Window = Window(start: nat, off: nat, sz: nat) {
    function Begin(): nat {
      start + off
    }

    function End(): nat {
      start + sz
    }

    function BeforeBegin(): nat {
      if Begin() == 0 then MODULO - 1 else Begin() - 1
    }

    function GetSz(): int {
      sz - off
    }

    function Inc(add: nat): Window {
      this.(off := off + add)
    }

    function NextWindow(): Window {
      Window(start + sz, 0, sz)
    }

    predicate Contains(w: Window) {
      var shift := Trunc(End()) < Begin() && w.End() < Trunc(End());
      var startWin := if shift && Trunc(w.End()) > w.Begin() then w.Begin() + MODULO else w.Begin();
      var endWin := if shift then w.End() + MODULO else w.End();
      Begin() <= startWin && End() >= endWin
    }
  }

  /** The window a segment of `len` bytes numbered `seqno` occupies. */
  function SegmentWindow(seqno: nat, len: nat): Window {
    Window(seqno, 0, len)
  }

  datatype SendWindow = SendWindow(start: nat, off: nat, sentOff: nat, sz: nat) {
    function Range(): Window {
      Window(start, off, sz)
    }

    function Begin(): nat {
      start + off
    }

    function End(): nat {
      start + sz
    }

    function SentBegin(): nat {
      start + sentOff
    }

    function SentSz(): int {
      sz - sentOff
    }

    predicate Empty() {
      sentOff == off
    }

    function InMsgOff(seqno: Wire): nat {
      var startModulo := Trunc(Begin());
      if startModulo <= seqno then seqno - startModulo else MODULO - startModulo + seqno
    }

    function SetOffFromSeq(seqno: Wire): SendWindow {
      this.(off := off + InMsgOff(seqno) + 1)
    }

    function NextWindow(): SendWindow {
      SendWindow(start + sz, 0, 0, sz)
    }

    /** The acknowledged byte lies in the window. */
    predicate InWin(seqno: Wire) {
      Range().Contains(SegmentWindow(seqno, 1))
    }

    /** The byte after the acknowledged one lies in the window. */
    predicate InPrevWin(seqno: Wire) {
      Range().Contains(SegmentWindow(seqno + 1, 1))
    }
  }

  /** The first position at or after `base` that the wire number `seqno` can mean. */
  function Lift(base: nat, seqno: Wire): nat {
    base + (seqno - base) % MODULO
  }

  /** A wire number determines the position it came from within one period. */
  lemma LiftUnique(base: nat, p: nat)
    requires base <= p < base + MODULO
    ensures Lift(base, Trunc(p)) == p
  {
    assert (Trunc(p) - base) % MODULO == (p - base) % MODULO;
  }

  lemma LiftLeast(base: nat, seqno: Wire, p: nat)
    requires base <= p && Trunc(p) == seqno
    ensures base <= Lift(base, seqno) <= p
    ensures Trunc(Lift(base, seqno)) == seqno
  {
    var k := (p - base) / MODULO;
    assert (seqno - base) % MODULO == (p - base) % MODULO;
  }

  /** Whatever `Contains` accepts fits, modulo 2^32: any window, any non-empty segment. */
  lemma ContainsSound(w: Window, seqno: Wire, len: nat)
    requires len > 0
    requires w.Contains(SegmentWindow(seqno, len))
    ensures w.Begin() <= Lift(w.Begin(), seqno)
    ensures Trunc(Lift(w.Begin(), seqno)) == seqno
    ensures Lift(w.Begin(), seqno) + len <= w.End()
  {
    var shift := Trunc(w.End()) < w.Begin() && seqno + len < Trunc(w.End());
    var p := if shift then seqno + MODULO else seqno;
    LiftLeast(w.Begin(), seqno, p);
  }

  /** The one family of fitting segments that the strict wrap test refuses. */
  predicate RefusedAtWrap(w: Window, p: nat, len: nat) {
    p >= MODULO && p + len == w.End()
  }

  /**
    What `Contains` accepts, exactly. For a window ending at or below 2^32 nothing that
    fits is refused; beyond it, exactly the segments lying wholly past the wrap and ending
    on the right edge are.
   */
  lemma ContainsExact(w: Window, seqno: Wire, len: nat)
    requires len > 0
    requires w.Begin() <= w.End() < w.Begin() + MODULO
    requires w.End() < 2 * MODULO
    ensures w.Contains(SegmentWindow(seqno, len)) <==>
              var p := Lift(w.Begin(), seqno);
              p + len <= w.End() && !RefusedAtWrap(w, p, len)
    ensures w.End() <= MODULO ==>
              (w.Contains(SegmentWindow(seqno, len)) <==> Lift(w.Begin(), seqno) + len <= w.End())
  {
    ContainsLinear(w, seqno, len);
    var p := Lift(w.Begin(), seqno);
    LiftSmall(w.Begin(), seqno);
  }

  lemma LiftSmall(base: nat, seqno: Wire)
    requires base < 2 * MODULO
    ensures var p := Lift(base, seqno);
            p == if base <= seqno then seqno else if base <= seqno + MODULO then seqno + MODULO else seqno + 2 * MODULO
  {
    var p := if base <= seqno then seqno else if base <= seqno + MODULO then seqno + MODULO else seqno + 2 * MODULO;
    LiftUnique(base, p);
    assert Trunc(p) == seqno;
  }

  /** A segment that starts at the window's begin is never shifted across the wrap. */
  lemma ContainsAtBegin(w: Window, len: nat)
    requires w.Begin() + len <= w.End()
    ensures w.Contains(SegmentWindow(w.Begin(), len))
  {
  }

  /** Position-to-offset conversion of the send window is `Lift` relative to its begin. */
  lemma InMsgOffIsLift(w: SendWindow, seqno: Wire)
    ensures w.Begin() + w.InMsgOff(seqno) == Lift(w.Begin(), seqno)
  {
    var b := Trunc(w.Begin());
    assert (seqno - w.Begin()) % MODULO == (seqno - b) % MODULO;
  }

  /** The wire number an acknowledgement of everything below `pos` carries. */
  function AckNo(pos: nat): Wire {
    (pos - 1) % MODULO
  }

  lemma AckNoSucc(pos: nat)
    ensures Trunc(AckNo(pos) + 1) == Trunc(pos)
  {
    assert (pos - 1) % MODULO + 1 == pos - MODULO * ((pos - 1) / MODULO);
  }

  lemma TruncAdd(x: nat, y: nat, d: nat)
    requires Trunc(x) == Trunc(y)
    ensures Trunc(x + d) == Trunc(y + d)
  {
    var k := x / MODULO - y / MODULO;
    var q := (y + d) / MODULO;
    assert x + d == MODULO * (q + k) + (y + d) % MODULO;
  }

  lemma BeforeBeginIsAckNo(w: Window)
    ensures Trunc(w.BeforeBegin()) == AckNo(w.Begin())
  {
  }

  /**
    An acknowledgement of everything below `pos` is taken by the send window exactly when
    `pos` lies in it, wrap edge apart, and then it moves the window to `pos`.
   */
  lemma AckLands(w: SendWindow, pos: nat, low: nat)
    requires low <= pos && low <= w.Begin() <= w.End()
    requires pos < low + MODULO && w.End() < low + MODULO
    requires w.End() < 2 * MODULO
    ensures w.InWin(AckNo(pos)) <==> w.Begin() < pos <= w.End() && !(pos == w.End() && pos > MODULO)
    ensures w.InWin(AckNo(pos)) ==> w.SetOffFromSeq(AckNo(pos)) == w.(off := pos - w.start)
  {
    LiftAck(w.Begin(), pos, w.End());
    ContainsExact(w.Range(), AckNo(pos), 1);
    InMsgOffIsLift(w, AckNo(pos));
  }

  lemma LiftAck(base: nat, pos: nat, end: nat)
    requires base <= end && pos < base + MODULO && end < pos + MODULO
    ensures base < pos ==> Lift(base, AckNo(pos)) == pos - 1
    ensures pos <= base ==> Lift(base, AckNo(pos)) >= end
  {
    if base < pos {
      LiftUnique(base, pos - 1);
    } else {
      LiftUnique(base, pos - 1 + MODULO);
      assert Trunc(pos - 1 + MODULO) == AckNo(pos);
    }
  }

  lemma TruncSmall(x: nat)
    requires x < 2 * MODULO
    ensures Trunc(x) == if x < MODULO then x else x - MODULO
  {
  }

  /** `Contains` on positions below 2^33, with the wrap written out. */
  lemma ContainsLinear(w: Window, x: nat, len: nat)
    requires len > 0 && w.End() < 2 * MODULO
    ensures var t := if w.End() < MODULO then w.End() else w.End() - MODULO;
            w.Contains(SegmentWindow(x, len)) <==>
              if t < w.Begin() && x + len < t
              then w.Begin() <= x + MODULO && x + len + MODULO <= w.End()
              else w.Begin() <= x && x + len <= w.End()
  {
    TruncSmall(w.End());
    if x + len < MODULO {
      TruncSmall(x + len);
    }
  }

  lemma AckNoSmall(pos: nat)
    requires pos < 2 * MODULO
    ensures AckNo(pos) + 1 == if pos == 0 then MODULO else if pos <= MODULO then pos else pos - MODULO
  {
    if pos > 0 {
      TruncSmall(pos - 1);
    }
  }

  /** The byte after the acknowledged one lies in the window: the 32-bit number plus one may be 2^32 itself. */
  lemma PrevLands(w: SendWindow, pos: nat, low: nat)
    requires low < MODULO && low <= pos && low <= w.Begin() <= w.End()
    requires pos < low + MODULO && w.End() < low + MODULO
    ensures w.InPrevWin(AckNo(pos)) <==>
              pos > 0 && w.Begin() <= pos < w.End() && !(pos > MODULO && pos + 1 == w.End())
  {
    AckNoSmall(pos);
    ContainsLinear(w.Range(), AckNo(pos) + 1, 1);
  }

  /**
    The duplicate branch is taken exactly for an acknowledgement of everything below the window's begin,
    except at position 0 and for the last byte of a window past 2^32.
   */
  lemma DuplicateLands(w: SendWindow, pos: nat, low: nat)
    requires low < MODULO && low <= pos && low <= w.Begin() < w.End()
    requires pos < low + MODULO && w.End() < low + MODULO
    ensures !w.InWin(AckNo(pos)) && w.InPrevWin(AckNo(pos)) <==>
              pos == w.Begin() > 0 && !(pos > MODULO && pos + 1 == w.End())
  {
    AckLands(w, pos, low);
    PrevLands(w, pos, low);
  }
}
