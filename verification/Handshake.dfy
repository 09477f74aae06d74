/**
  Connection establishment (src/tcp_proto_handshaker.h and the message loops of src/newimpl.cpp): the
  handshaker's memory and the exchange between a connecting and a listening socket over a network that
  may hold any messages of earlier connections.
 */
module Handshake {
  import opened SequenceWindows

  datatype Message = Message(syn: bool, ack: bool, seqno: Wire, ackSeq: Wire)

  function Succ(x: Wire): Wire {
    Trunc(x + 1)
  }

  // ---------------------------------------------------------------- the handshaker

  function Syn(nonce: Wire): Message {
    Message(true, false, nonce, 0)
  }

  function SynAck(nonce: Wire, ackSeq: Wire): Message {
    Message(true, true, nonce, ackSeq)
  }

  class EstablishHandshaker {
    var sendRememberedSeq: Wire
    var recvRememberedSeq: Wire
    var recvRememberedAckSeq: Wire

    constructor ()
    {
      sendRememberedSeq, recvRememberedSeq, recvRememberedAckSeq := 0, 0, 0;
    }

    method SendEstablish(nonce: Wire) returns (syn: Message)
      modifies this`sendRememberedSeq
      ensures sendRememberedSeq == nonce && syn == Syn(nonce)
    {
      sendRememberedSeq := nonce;
      syn := Message(true, false, sendRememberedSeq, 0);
    }

    method RecvOnSyn(syn: Message, nonce: Wire) returns (reply: Message)
      modifies this`recvRememberedSeq, this`recvRememberedAckSeq
      ensures recvRememberedSeq == nonce && recvRememberedAckSeq == Succ(syn.seqno)
      ensures reply == SynAck(nonce, Succ(syn.seqno))
    {
      recvRememberedSeq := nonce;
      recvRememberedAckSeq := Trunc(syn.seqno + 1);
      reply := Message(true, true, recvRememberedSeq, recvRememberedAckSeq);
    }

    /** The window start of the established receiver, or `None` where the source drops the message. */
    method RecvOnAck(m: Message) returns (start: Option<Wire>)
      ensures start == OnAck(recvRememberedSeq, recvRememberedAckSeq, m)
    {
      if m.seqno == recvRememberedAckSeq && m.ackSeq == Trunc(recvRememberedSeq + 1) {
        start := Some(m.ackSeq);
      } else {
        start := None;
      }
    }

    /** The acknowledgement to send and the window start of the established sender, or `None` for a drop. */
    method SendOnSynAck(m: Message) returns (r: Option<(Message, Wire)>)
      ensures r.Some? <==> AnswersSyn(sendRememberedSeq, m)
      ensures r.Some? ==> r.value == (AckFor(m), Succ(m.seqno))
    {
      if m.ackSeq == Trunc(sendRememberedSeq + 1) {
        r := Some((Message(false, true, m.ackSeq, Trunc(m.seqno + 1)), Trunc(m.seqno + 1)));
      } else {
        r := None;
      }
    }
  }

  function OnAck(recvSeq: Wire, recvAckSeq: Wire, m: Message): Option<Wire> {
    if m.seqno == recvAckSeq && m.ackSeq == Succ(recvSeq) then Some(m.ackSeq) else None
  }

  predicate AnswersSyn(sendSeq: Wire, m: Message) {
    m.ackSeq == Succ(sendSeq)
  }

  function AckFor(m: Message): Message {
    Message(false, true, m.ackSeq, Succ(m.seqno))
  }

  // ---------------------------------------------------------------- two sockets and a network

  datatype Side = Closed | Waiting | Established(start: Wire)

  datatype System = System(
    snd: Side, sendSeq: Wire,
    rcv: Side, recvSeq: Wire, recvAckSeq: Wire,
    net: set<Message>)

  datatype Event =
    | Connect(nonce: Wire)
    | GetSyn(m: Message, nonce: Wire)
    | GetSynAck(m: Message)
    | GetAck(m: Message)

  /** Nothing has begun; the network holds whatever earlier connections left there. */
  predicate Init(s: System) {
    s.snd.Closed? && s.rcv.Closed?
  }

  predicate Enabled(s: System, e: Event) {
    match e
    case Connect(_) => s.snd.Closed?
    case GetSyn(m, _) => s.rcv.Closed? && m in s.net && m.syn && !m.ack
    case GetSynAck(m) => s.snd.Waiting? && m in s.net && m.syn && m.ack
    case GetAck(m) => s.rcv.Waiting? && m in s.net && m.ack && !m.syn
  }

  /**
    The choice of a nonce is safe when no message about could answer it in place of the peer: a stale
    SYN-ACK other than the receiver's own, or a stale acknowledgement of both numbers.
   */
  predicate Safe(s: System, e: Event) {
    match e
    case Connect(nonce) =>
      forall m :: m in s.net && m.syn && m.ack && AnswersSyn(nonce, m) ==> !s.rcv.Closed? && m.seqno == s.recvSeq
    case GetSyn(syn, nonce) =>
      forall m :: m in s.net && m.ack && !m.syn ==> OnAck(nonce, Succ(syn.seqno), m).None?
    case _ => true
  }

  function Step(s: System, e: Event): System
    requires Enabled(s, e)
  {
    match e
    case Connect(nonce) => s.(snd := Waiting, sendSeq := nonce, net := s.net + {Syn(nonce)})
    case GetSyn(m, nonce) =>
      s.(rcv := Waiting, recvSeq := nonce, recvAckSeq := Succ(m.seqno), net := s.net + {SynAck(nonce, Succ(m.seqno))})
    case GetSynAck(m) =>
      if AnswersSyn(s.sendSeq, m) then s.(snd := Established(Succ(m.seqno)), net := s.net + {AckFor(m)}) else s
    case GetAck(m) =>
      match OnAck(s.recvSeq, s.recvAckSeq, m)
      case Some(start) => s.(rcv := Established(start))
      case None => s
  }

  /** The system's numbers are what the caller's and the listener's handshaker remember. */
  predicate Remembered(s: System, caller: EstablishHandshaker, listener: EstablishHandshaker)
    reads caller, listener
  {
    && s.sendSeq == caller.sendRememberedSeq
    && s.recvSeq == listener.recvRememberedSeq && s.recvAckSeq == listener.recvRememberedAckSeq
  }

  /** One round of the message loops, carried out by the handshakers, is the event of the exchange. */
  method Perform(s: System, e: Event, caller: EstablishHandshaker, listener: EstablishHandshaker) returns (s': System)
    requires Enabled(s, e) && Remembered(s, caller, listener)
    modifies caller`sendRememberedSeq, listener`recvRememberedSeq, listener`recvRememberedAckSeq
    ensures s' == Step(s, e) && Remembered(s', caller, listener)
  {
    s' := s;
    match e {
      case Connect(nonce) =>
        var syn := caller.SendEstablish(nonce);
        s' := s.(snd := Waiting, sendSeq := caller.sendRememberedSeq, net := s.net + {syn});
      case GetSyn(m, nonce) =>
        var reply := listener.RecvOnSyn(m, nonce);
        s' := s.(rcv := Waiting, recvSeq := listener.recvRememberedSeq, recvAckSeq := listener.recvRememberedAckSeq,
                 net := s.net + {reply});
      case GetSynAck(m) =>
        var r := caller.SendOnSynAck(m);
        if r.Some? {
          s' := s.(snd := Established(r.value.1), net := s.net + {r.value.0});
        }
      case GetAck(m) =>
        var start := listener.RecvOnAck(m);
        if start.Some? {
          s' := s.(rcv := Established(start.value));
        }
    }
  }

  /**
    A message establishes its side, and only it, exactly if it answers in full what that side has sent; any other
    leaves everything as it was. Establishing the caller sends the acknowledgement of both numbers.
   */
  lemma AnswerEstablishes(s: System, m: Message)
    ensures Enabled(s, GetSynAck(m)) ==>
              Step(s, GetSynAck(m))
              == if m.ackSeq == (s.sendSeq + 1) % 4294967296
                 then s.(snd := Established((m.seqno + 1) % 4294967296),
                         net := s.net + {Message(false, true, (s.sendSeq + 1) % 4294967296, (m.seqno + 1) % 4294967296)})
                 else s
    ensures Enabled(s, GetAck(m)) ==>
              Step(s, GetAck(m))
              == if m.seqno == s.recvAckSeq && m.ackSeq == (s.recvSeq + 1) % 4294967296
                 then s.(rcv := Established((s.recvSeq + 1) % 4294967296))
                 else s
  {
  }

  predicate Legal(s: System, events: seq<Event>)
    decreases |events|
  {
    |events| > 0 ==> Enabled(s, events[0]) && Legal(Step(s, events[0]), events[1..])
  }

  function After(s: System, events: seq<Event>): System
    requires Legal(s, events)
    decreases |events|
  {
    if |events| == 0 then s else After(Step(s, events[0]), events[1..])
  }

  predicate SafeNonces(s: System, events: seq<Event>)
    requires Legal(s, events)
    decreases |events|
  {
    |events| > 0 ==> Safe(s, events[0]) && SafeNonces(Step(s, events[0]), events[1..])
  }

  /** An established receiver has an established sender, and both windows start at the receiver's nonce plus one. */
  predicate Agreed(s: System) {
    && (s.rcv.Established? ==> s.snd.Established? && s.rcv.start == s.snd.start)
    && (s.snd.Established? ==> !s.rcv.Closed? && s.snd.start == (s.recvSeq + 1) % MODULO)
  }

  ghost predicate Inv(s: System) {
    && (s.snd.Established? ==> !s.rcv.Closed? && s.snd.start == Succ(s.recvSeq))
    && (s.rcv.Established? ==> s.snd.Established? && s.rcv.start == Succ(s.recvSeq))
    && (s.snd.Waiting? ==> forall m :: m in s.net && m.syn && m.ack && AnswersSyn(s.sendSeq, m) ==>
                             !s.rcv.Closed? && m.seqno == s.recvSeq)
    && (s.rcv.Waiting? ==> forall m :: m in s.net && m.ack && !m.syn && OnAck(s.recvSeq, s.recvAckSeq, m).Some? ==>
                             s.snd.Established?)
    && (!s.rcv.Closed? ==> SynAck(s.recvSeq, s.recvAckSeq) in s.net)
  }

  lemma StepInv(s: System, e: Event)
    requires Inv(s) && Enabled(s, e) && Safe(s, e)
    ensures Inv(Step(s, e))
  {
  }

  lemma {:induction false} Agreement(s: System, events: seq<Event>)
    requires Inv(s) && Legal(s, events) && SafeNonces(s, events)
    ensures Inv(After(s, events)) && Agreed(After(s, events))
    decreases |events|
  {
    if |events| == 0 {
    } else {
      StepInv(s, events[0]);
      Agreement(Step(s, events[0]), events[1..]);
    }
  }

  /** Whatever stale messages the network holds, safe nonces lead to agreement. */
  lemma AgreementFromStart(s: System, events: seq<Event>)
    requires Init(s) && Legal(s, events) && SafeNonces(s, events)
    ensures Agreed(After(s, events))
  {
    Agreement(s, events);
  }

  /** Every continuation with safe nonces agrees. */
  ghost predicate AlwaysAgrees(s: System) {
    forall events :: Legal(s, events) && SafeNonces(s, events) ==> Agreed(After(s, events))
  }

  /** Safety of a nonce is exactly what agreement needs: an unsafe one lets some continuation disagree. */
  lemma AgreesIffSafe(s: System, e: Event)
    requires Inv(s) && Enabled(s, e)
    ensures AlwaysAgrees(Step(s, e)) <==> Safe(s, e)
  {
    var s1 := Step(s, e);
    if Safe(s, e) {
      StepInv(s, e);
      forall events | Legal(s1, events) && SafeNonces(s1, events)
        ensures Agreed(After(s1, events))
      {
        Agreement(s1, events);
      }
    } else {
      var m := Impostor(s, e);
      var answer := if e.Connect? then GetSynAck(m) else GetAck(m);
      LegalCons(s1, answer, []);
      assert [answer] + [] == [answer] && [answer][1..] == [];
      assert SafeNonces(s1, [answer]);
      assert !Agreed(Step(s1, answer));
    }
  }

  /** The message that makes a nonce unsafe, delivered next, establishes one side without the other's consent. */
  lemma Impostor(s: System, e: Event) returns (m: Message)
    requires Inv(s) && Enabled(s, e) && !Safe(s, e)
    ensures e.Connect? || e.GetSyn?
    ensures var answer := if e.Connect? then GetSynAck(m) else GetAck(m);
            Enabled(Step(s, e), answer) && !Agreed(Step(Step(s, e), answer))
  {
    match e
    case Connect(nonce) =>
      m :| m in s.net && m.syn && m.ack && AnswersSyn(nonce, m) && !(!s.rcv.Closed? && m.seqno == s.recvSeq);
      SuccInjective(m.seqno, s.recvSeq);
    case GetSyn(syn, nonce) =>
      m :| m in s.net && m.ack && !m.syn && OnAck(nonce, Succ(syn.seqno), m).Some?;
  }

  lemma SuccInjective(x: Wire, y: Wire)
    ensures Succ(x) == Succ(y) ==> x == y
  {
  }

  /**
    The listener takes exactly the acknowledgement of its own reply, and the caller exactly the reply to its
    own SYN: answering what was sent establishes at nonce plus one, and nothing else establishes.
   */
  lemma OwnExchangeOnly(c: Wire, n: Wire, x: Wire, m: Message)
    ensures OnAck(n, Succ(c), AckFor(SynAck(n, Succ(c)))) == Some((n + 1) % MODULO)
    ensures m.syn && m.ack ==> (OnAck(n, Succ(c), AckFor(m)).Some? <==> m == SynAck(n, Succ(c)))
    ensures AnswersSyn(c, SynAck(n, Succ(x))) <==> x == c
  {
    SuccInjective(m.seqno, n);
    SuccInjective(x, c);
  }

  /** And the exchange can always be carried through: four deliveries establish both sides. */
  lemma ThreeWayCompletes(s: System, c: Wire, n: Wire)
    requires Init(s)
    ensures exists events ::
              && Legal(s, events)
              && After(s, events).snd == After(s, events).rcv == Established((n + 1) % MODULO)
  {
    var e0 := Connect(c);
    var s1 := Step(s, e0);
    var e1 := GetSyn(Syn(c), n);
    var s2 := Step(s1, e1);
    var e2 := GetSynAck(SynAck(n, Succ(c)));
    var s3 := Step(s2, e2);
    var e3 := GetAck(AckFor(SynAck(n, Succ(c))));
    var s4 := Step(s3, e3);
    LegalCons(s3, e3, []);
    LegalCons(s2, e2, [e3]);
    LegalCons(s1, e1, [e2, e3]);
    LegalCons(s, e0, [e1, e2, e3]);
    assert After(s, [e0] + [e1, e2, e3]) == s4;
  }

  lemma LegalCons(s: System, e: Event, rest: seq<Event>)
    requires Enabled(s, e) && Legal(Step(s, e), rest)
    ensures Legal(s, [e] + rest) && After(s, [e] + rest) == After(Step(s, e), rest)
  {
    assert ([e] + rest)[0] == e && ([e] + rest)[1..] == rest;
  }

  /** Safety is needed: a stale acknowledgement that happens to match establishes the receiver alone. */
  lemma StaleAckEstablishesAlone()
    ensures exists s, events ::
              Init(s) && Legal(s, events) && After(s, events).rcv.Established? && After(s, events).snd.Closed?
  {
    var syn, ack := Syn(5), Message(false, true, 6, 8);
    var s := System(Closed, 0, Closed, 0, 0, {syn, ack});
    var e0, e1 := GetSyn(syn, 7), GetAck(ack);
    var s1 := Step(s, e0);
    var s2 := Step(s1, e1);
    LegalCons(s1, e1, []);
    LegalCons(s, e0, [e1]);
    assert After(s, [e0] + [e1]) == s2;
  }
}
