/** The client's side of handshake and migration (conn.go): five attempts, and what success changes. */
module Handshake {
  import opened Base
  import opened Compression
  import opened CodecRoundTrip
  import opened Engine
  import Listening
  import C = Codec

  const ATTEMPTS: nat := 5

  /** A decoded datagram, as far as the client looks at it. */
  datatype Answer = Garbage | SynAck(payload: string) | OtherPacket

  /** What happens to one attempt. */
  datatype Attempt = WriteFails | ReadTimesOut | ReadFails | Receives(answer: Answer)

  datatype Outcome = Succeeded(payload: string) | Failed | GaveUp

  /** Timeouts, undecodable datagrams and packets of other types lead to the next attempt. */
  predicate Retried(a: Attempt) {
    a.ReadTimesOut? || (a.Receives? && !a.answer.SynAck?)
  }

  predicate AllRetried(attempts: seq<Attempt>) {
    forall a <- attempts :: Retried(a)
  }

  /** The result after at most `left` attempts. */
  function Result(attempts: seq<Attempt>, left: nat): Outcome
    requires |attempts| >= left
    decreases left
  {
    if left == 0 then GaveUp
    else if Retried(attempts[0]) then Result(attempts[1..], left - 1)
    else if attempts[0].Receives? then Succeeded(attempts[0].answer.payload)
    else Failed
  }

  /** Success means exactly: some attempt within the limit got a SYN-ACK, and all before it were retried. */
  lemma {:induction false} SucceedsIff(attempts: seq<Attempt>, left: nat, payload: string)
    requires |attempts| >= left
    ensures Result(attempts, left) == Succeeded(payload) <==>
              exists i :: 0 <= i < left && attempts[i] == Receives(SynAck(payload)) && AllRetried(attempts[..i])
    decreases left
  {
    if left > 0 && Retried(attempts[0]) {
      SucceedsIff(attempts[1..], left - 1, payload);
      if i :| 0 <= i < left - 1 && attempts[1..][i] == Receives(SynAck(payload)) && AllRetried(attempts[1..][..i]) {
        assert attempts[..i + 1] == [attempts[0]] + attempts[1..][..i];
        assert attempts[i + 1] == Receives(SynAck(payload));
      }
      if i :| 0 <= i < left && attempts[i] == Receives(SynAck(payload)) && AllRetried(attempts[..i]) {
        assert i > 0 ==> attempts[1..][..i - 1] == attempts[..i][1..];
        assert attempts[1..][i - 1] == Receives(SynAck(payload));
      }
    }
  }

  /** The socket's read deadline passed, or something came that is no SYN-ACK. */
  predicate Soft(a: Attempt) {
    a == ReadTimesOut || a == Receives(Garbage) || a == Receives(Answer.OtherPacket)
  }

  ghost predicate DecidedAt(attempts: seq<Attempt>, left: nat, i: nat)
    requires |attempts| >= left
  {
    i < left && !Soft(attempts[i]) && forall j :: 0 <= j < i ==> Soft(attempts[j])
  }

  /**
   The first attempt that is not soft decides: a SYN-ACK succeeds with its
   payload, a failed write or read ends the exchange; without one it is given up.
   */
  lemma {:induction false} FirstHardDecides(attempts: seq<Attempt>, left: nat)
    requires |attempts| >= left
    ensures Result(attempts, left) == GaveUp <==> forall i :: 0 <= i < left ==> Soft(attempts[i])
    ensures forall i: nat :: DecidedAt(attempts, left, i) ==>
              match attempts[i]
              case WriteFails => Result(attempts, left) == Failed
              case ReadFails => Result(attempts, left) == Failed
              case Receives(answer) => answer.SynAck? && Result(attempts, left) == Succeeded(answer.payload)
              case ReadTimesOut => false
    decreases left
  {
    if left > 0 && Soft(attempts[0]) {
      var rest := attempts[1..];
      FirstHardDecides(rest, left - 1);
      assert forall i :: 0 <= i < left - 1 ==> rest[i] == attempts[i + 1];
      assert (forall i :: 0 <= i < left - 1 ==> Soft(rest[i])) ==> forall i :: 0 < i < left ==> Soft(attempts[i]) by {
        assert forall i :: 0 < i < left ==> attempts[i] == rest[i - 1];
      }
      forall i: nat | DecidedAt(attempts, left, i) ensures i > 0 && DecidedAt(rest, left - 1, i - 1) {
      }
    }
  }

  class Client {
    var socket: string
    var remoteAddr: string
    var sessionId: string
    const arq: ArqEngine

    constructor (socket: string, remoteAddr: string, arq: ArqEngine)
      ensures this.socket == socket && this.remoteAddr == remoteAddr && sessionId == "" && this.arq == arq
    {
      this.socket, this.remoteAddr, sessionId, this.arq := socket, remoteAddr, "", arq;
    }

    /** `syn` is the packet every attempt writes. */
    method HandshakeClient(uuid: string, attempts: seq<Attempt>) returns (r: Outcome, syn: Listening.Datagram)
      requires |attempts| >= ATTEMPTS
      modifies this`sessionId
      ensures syn == Listening.SynPacket(false, "AUTH:" + uuid)
      ensures r == Result(attempts, ATTEMPTS)
      ensures sessionId == if r.Succeeded? then r.payload else old(sessionId)
    {
      syn := Listening.SynPacket(false, "AUTH:" + uuid);
      r := Exchange(attempts);
      if r.Succeeded? {
        sessionId := r.payload;
      }
    }

    /**
     On success the new socket and address are swapped in; the session and both
     halves of the ARQ engine stay as they are. `syn` is the packet every attempt
     writes, with the migration flag.
     */
    method Migrate(newSocket: string, newAddr: string, attempts: seq<Attempt>)
      returns (r: Outcome, syn: Listening.Datagram)
      requires |attempts| >= ATTEMPTS
      modifies this`socket, this`remoteAddr
      ensures syn == Listening.SynPacket(true, "MIGRATE:" + sessionId)
      ensures r == Result(attempts, ATTEMPTS)
      ensures (socket, remoteAddr) == if r.Succeeded? then (newSocket, newAddr) else old((socket, remoteAddr))
      ensures arq.Snd() == old(arq.Snd()) && arq.Rcv() == old(arq.Rcv()) && sessionId == old(sessionId)
    {
      syn := Listening.SynPacket(true, "MIGRATE:" + sessionId);
      r := Exchange(attempts);
      if r.Succeeded? {
        socket, remoteAddr := newSocket, newAddr;
      }
    }

    /** The retry loop both share. */
    method Exchange(attempts: seq<Attempt>) returns (r: Outcome)
      requires |attempts| >= ATTEMPTS
      ensures r == Result(attempts, ATTEMPTS)
      ensures r == GaveUp <==> forall i :: 0 <= i < 5 ==> Soft(attempts[i])
      ensures forall i: nat :: DecidedAt(attempts, 5, i) ==>
                r == if attempts[i].Receives? then Succeeded(attempts[i].answer.payload) else Failed
    {
      FirstHardDecides(attempts, ATTEMPTS);
      for attempt := 0 to ATTEMPTS
        invariant Result(attempts, ATTEMPTS) == Result(attempts[attempt..], ATTEMPTS - attempt)
      {
        assert attempts[attempt..][1..] == attempts[attempt + 1..];
        match attempts[attempt] {
          case WriteFails => return Failed;
          case ReadFails => return Failed;
          case ReadTimesOut => continue;
          case Receives(answer) =>
            if answer.SynAck? {
              return Succeeded(answer.payload);
            }
        }
      }
      r := GaveUp;
    }
  }

  // ---- which answers can be decoded at all ------------------------------------------

  function SynAckPacket(payload: Bytes): C.Packet {
    C.Packet(C.SYNACK, 0, 1, 0, payload, [])
  }

  /**
   A SYN-ACK is decodable under every lawful cipher exactly if its body, the
   payload or its compressed frame, has at least 11 bytes. Below 64 bytes the
   body is the payload. The listener's migration answer "OK" is not decodable,
   so Migrate can only succeed through the answer of the connection itself to
   a later attempt, which carries the session id.
   */
  lemma SynAckDecodableIff(c: C.Config, payload: Bytes)
    requires C.Usable(c) && Encodable(c, SynAckPacket(payload)) && |payload| < U32
    ensures (forall aead: C.Aead, nonce: Bytes :: C.Lawful(aead) && |nonce| == C.NONCE_SIZE ==>
               RoundTrips(c.(aead := aead), SynAckPacket(payload), nonce)) <==> |Body(c.compression, payload)| >= 11
    ensures |payload| < FRAME_MIN_SIZE ==> Body(c.compression, payload) == payload
  {
    var p := SynAckPacket(payload);
    assert C.SackTrailer(C.EncodedFlags(c, p), []) == [];
    PlaintextShape(c, p);
    InitialRoundTripsIff(c, p);
  }
}
