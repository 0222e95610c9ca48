/**
 The byte-stream face of a connection: `Write` cuts its argument into
 segments, `Read` and `copyPayload` put the bytes back together.
 */
module Stream {
  import opened Base

  const MAX_PAYLOAD: int := 1200

  /** What arq.Send did with one segment, and the error Write sees. */
  datatype SendOutcome =
    | Sent            // queued and put on the wire
    | TransportError  // queued, but the socket write failed
    | EncodeError     // a sequence number was used up, nothing was queued
    | Closed          // the engine was closed

  datatype WriteError = NoError | EngineClosed | EncodeFailed | TransportFailed

  function ErrorOf(o: SendOutcome): WriteError {
    match o
    case Sent => NoError
    case TransportError => TransportFailed
    case EncodeError => EncodeFailed
    case Closed => EngineClosed
  }

  /** The segments Write offers to arq.Send, in order. */
  function Segments(b: Bytes): seq<Bytes> {
    if b == [] then [] else [b[..Min(|b|, MAX_PAYLOAD)]] + Segments(b[Min(|b|, MAX_PAYLOAD)..])
  }

  /** Segmentation loses nothing, and only the last segment may be short. */
  lemma {:induction false} SegmentsPartition(b: Bytes)
    ensures Flatten(Segments(b)) == b
    ensures forall i :: 0 <= i < |Segments(b)| ==> 0 < |Segments(b)[i]| <= MAX_PAYLOAD
    ensures forall i :: 0 <= i < |Segments(b)| - 1 ==> |Segments(b)[i]| == MAX_PAYLOAD
  {
    if b != [] {
      var k := Min(|b|, MAX_PAYLOAD);
      SegmentsPartition(b[k..]);
      assert Segments(b)[1..] == Segments(b[k..]);
      assert b == b[..k] + b[k..];
    }
  }

  /** Position of the first of `count` segments that arq.Send did not simply take, or has not been given yet. */
  function Stop(outcomes: seq<SendOutcome>, count: nat): (k: nat)
    ensures k <= count && k <= |outcomes| && (forall i :: 0 <= i < k ==> outcomes[i] == Sent)
    ensures k < count && k < |outcomes| ==> outcomes[k] != Sent
  {
    if count == 0 || outcomes == [] || outcomes[0] != Sent then 0 else 1 + Stop(outcomes[1..], count - 1)
  }

  /**
   Bytes reported, error reported, segments queued by Write on an open
   connection; with fewer outcomes than segments, by a Write under way.
   */
  function Written(b: Bytes, outcomes: seq<SendOutcome>): (nat, WriteError, seq<Bytes>) {
    var segments := Segments(b);
    var k := Stop(outcomes, |segments|);
    (|Flatten(segments[..k])|,
     if k < |segments| && k < |outcomes| then ErrorOf(outcomes[k]) else NoError,
     if k < |segments| && k < |outcomes| && outcomes[k] == TransportError then segments[..k + 1] else segments[..k])
  }

  lemma QueueOne(queued: seq<Bytes>, chunk: Bytes)
    ensures Flatten(queued + [chunk]) == Flatten(queued) + chunk
  {
    FlattenConcat(queued, [chunk]);
    FlattenOne(chunk);
  }

  /** The loop of Write is at segment `i`, with `remaining` still to cut. */
  lemma NextSegment(b: Bytes, remaining: Bytes, i: nat)
    requires i <= |Segments(b)| && Segments(b)[i..] == Segments(remaining) && remaining != []
    ensures var k := Min(|remaining|, MAX_PAYLOAD);
            && i < |Segments(b)| && Segments(b)[i] == remaining[..k]
            && Segments(b)[..i + 1] == Segments(b)[..i] + [remaining[..k]]
            && Segments(b)[i + 1..] == Segments(remaining[k..])
  {
    assert Segments(b)[i] == Segments(b)[i..][0];
    assert Segments(b)[i + 1..] == Segments(b)[i..][1..];
  }

  lemma StopUnfolds(outcomes: seq<SendOutcome>, i: nat, count: nat)
    requires i < count <= |outcomes|
    ensures Stop(outcomes[i..], count - i)
         == if outcomes[i] == Sent then 1 + Stop(outcomes[i + 1..], count - (i + 1)) else 0
  {
    assert outcomes[i..][1..] == outcomes[i + 1..];
  }

  /** Send's first outcome that is an error. */
  ghost predicate FirstError(outcomes: seq<SendOutcome>, count: nat, i: nat) {
    i < |outcomes| && i < count && outcomes[i] != Sent && forall j :: 0 <= j < i ==> outcomes[j] == Sent
  }

  /**
   What the caller of Write may conclude: the engine owns a prefix of `b` that
   covers the bytes reported, exactly those bytes unless a socket write failed.
   In that case it also owns, and will deliver, one segment reported as unsent.
   */
  lemma WriteReport(b: Bytes, outcomes: seq<SendOutcome>)
    requires |outcomes| >= |Segments(b)|
    ensures var (n, err, queued) := Written(b, outcomes);
            && n <= |b| && b[..n] <= Flatten(queued) <= b
            && (Flatten(queued) == b[..n] <==> err != TransportFailed)
            && (err == NoError <==> n == |b|)
            && (n == |b| <==> forall i :: 0 <= i < |Segments(b)| ==> outcomes[i] == Sent)
            && (err == EngineClosed ==>
                  exists i: nat :: FirstError(outcomes, |Segments(b)|, i) && outcomes[i] == Closed)
            && (err == EncodeFailed ==>
                  exists i: nat :: FirstError(outcomes, |Segments(b)|, i) && outcomes[i] == EncodeError)
            && (err == TransportFailed ==>
                  exists i: nat :: FirstError(outcomes, |Segments(b)|, i) && outcomes[i] == TransportError)
  {
    var segments := Segments(b);
    var (n, err, queued) := Written(b, outcomes);
    var k := Stop(outcomes, |segments|);
    SegmentsPartition(b);
    FlattenPrefix(segments[..k], segments);
    FlattenPrefix(queued, segments);
    assert segments[..|segments|] == segments;
    if k < |segments| {
      assert FirstError(outcomes, |segments|, k);
      assert segments[..k + 1] == segments[..k] + [segments[k]];
      QueueOne(segments[..k], segments[k]);
      FlattenPrefix(segments[..k + 1], segments);
    }
  }

  datatype ReadResult = Nothing | Copied(bytes: Bytes, readBuf: Bytes, queue: seq<Bytes>)

  /** One Read into a buffer of `room` bytes: leftovers first, then the next packet. */
  function ReadOnce(readBuf: Bytes, queue: seq<Bytes>, room: nat): ReadResult {
    if readBuf != [] then
      var n := Min(room, |readBuf|);
      Copied(readBuf[..n], readBuf[n..], queue)
    else if queue != [] then
      var n := Min(room, |queue[0]|);
      Copied(queue[0][..n], readBuf + queue[0][n..], queue[1..])
    else Nothing
  }

  /** Reading moves bytes from the front of what is pending to the caller, and changes nothing else. */
  lemma ReadPreservesStream(readBuf: Bytes, queue: seq<Bytes>, room: nat)
    ensures match ReadOnce(readBuf, queue, room)
            case Nothing => readBuf + Flatten(queue) == []
            case Copied(bytes, readBuf', queue') =>
              && bytes + readBuf' + Flatten(queue') == readBuf + Flatten(queue)
              && (readBuf != [] ==> |bytes| == Min(room, |readBuf|) && queue' == queue)
              && (readBuf == [] ==> queue != [] && |bytes| == Min(room, |queue[0]|) && queue' == queue[1..])
  {
    if readBuf != [] {
      var n := Min(room, |readBuf|);
      assert readBuf[..n] + readBuf[n..] == readBuf;
    } else if queue != [] {
      var n := Min(room, |queue[0]|);
      assert queue[0][..n] + queue[0][n..] == queue[0];
      assert [] + queue[0][n..] == queue[0][n..];
    }
  }

  class MtpConn {
    var readBuf: Bytes
    var delivered: seq<Bytes>
    var closed: bool

    constructor ()
      ensures readBuf == [] && delivered == [] && !closed
    {
      readBuf, delivered, closed := [], [], false;
    }

    /** None is ErrClosed, or a wait for data that has not come. */
    method Read(room: nat) returns (got: Option<Bytes>)
      modifies this`readBuf, this`delivered
      ensures closed ==> got == None && readBuf == old(readBuf) && delivered == old(delivered)
      ensures !closed ==>
                match ReadOnce(old(readBuf), old(delivered), room)
                case Nothing => got == None && readBuf == old(readBuf) && delivered == old(delivered)
                case Copied(bytes, readBuf', queue') => got == Some(bytes) && readBuf == readBuf' && delivered == queue'
    {
      if closed {
        return None;
      }
      if |readBuf| > 0 {
        var n := Min(room, |readBuf|);
        got := Some(readBuf[..n]);
        readBuf := readBuf[n..];
        return;
      }
      if |delivered| == 0 {
        return None;
      }
      var payload := delivered[0];
      delivered := delivered[1..];
      var copied := CopyPayload(room, payload);
      got := Some(copied);
    }

    method CopyPayload(room: nat, payload: Bytes) returns (copied: Bytes)
      modifies this`readBuf
      ensures copied == payload[..Min(room, |payload|)]
      ensures readBuf == old(readBuf) + payload[Min(room, |payload|)..]
    {
      var n := Min(room, |payload|);
      copied := payload[..n];
      if n < |payload| {
        readBuf := readBuf + payload[n..];
      }
    }

    /** `outcomes[i]` is what arq.Send does with the i-th segment; `queued` are the segments the engine now owns. */
    method Write(b: Bytes, outcomes: seq<SendOutcome>) returns (n: nat, err: WriteError, queued: seq<Bytes>)
      requires |outcomes| >= |Segments(b)|
      ensures closed ==> n == 0 && err == EngineClosed && queued == []
      ensures !closed ==> (n, err, queued) == Written(b, outcomes)
    {
      n, err, queued := 0, NoError, [];
      if closed {
        return 0, EngineClosed, [];
      }
      var remaining := b;
      ghost var segments := Segments(b);
      ghost var i := 0;
      while |remaining| > 0
        invariant 0 <= i <= |segments| && segments[i..] == Segments(remaining)
        invariant queued == segments[..i] && n == |Flatten(queued)|
        invariant Stop(outcomes, |segments|) == i + Stop(outcomes[i..], |segments| - i)
        decreases |remaining|
      {
        var chunkSize := MAX_PAYLOAD;
        if |remaining| < chunkSize {
          chunkSize := |remaining|;
        }
        var chunk := remaining[..chunkSize];
        NextSegment(b, remaining, i);
        StopUnfolds(outcomes, i, |segments|);
        var outcome := outcomes[|queued|];
        if outcome != Sent {
          err := ErrorOf(outcome);
          if outcome == TransportError {
            queued := queued + [chunk];
          }
          return;
        }
        QueueOne(queued, chunk);
        queued := queued + [chunk];
        remaining := remaining[chunkSize..];
        n := n + chunkSize;
        i := i + 1;
      }
      assert segments[..i] == segments;
    }
  }
}
