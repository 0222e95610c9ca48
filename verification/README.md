# MTP, verified

A Dafny model of MTP, the reliable transport over UDP in `pkg/mtp`, with the
compression frame of `pkg/compression` and the swap wrapper of
`pkg/transport`. `dafny verify dfyconfig.toml` checks all of it.

## How it is built

Objects that the source updates in place are classes here (`ArqEngine`,
`Pacer`, `FecEncoder`, `FecDecoder`, `PacketCodec`, `MutablePacket`,
`Compressor`, `MtpConn`, `Client`, `Listener`, `ServerConn`, `VirtualConn`).
Their methods are the regions under a lock, and handlers made of them, proved
equal to specification functions on plain values. Runs are sequences of steps
in any order, with any clock readings; a step that is not enabled does
nothing. The theorems are about all runs. Where a handler takes several locks
one after the other (the listener, the swap), each region is a step of its own
and other goroutines come in between.

- `Receiver.dfy`, `Sender.dfy`: the two halves of the ARQ engine as functions;
  `ArqEngine.dfy` is the object. `RttEstimator.dfy`, `CongestionWindow.dfy`
  and `Pacer.dfy` hold its control arithmetic.
- `ReceiveSide.dfy`, `SendSide.dfy`: runs of each half with its history;
  `Transport.dfy` joins them over a network that loses, duplicates and
  reorders; `Progress.dfy` shows that it cannot get stuck. `Estimates.dfy`: what
  the send half measures, and what one retransmission cycle does.
- `Stream.dfy`: segmentation in `Write`, reassembly in `Read`.
  `StreamRuns.dfy` puts one writer into the runs, segment by segment;
  `StreamReach.dfy` shows what those runs can reach, and from it when a caller
  may go on writing; `StreamShape.dfy` says it by lengths and outcomes alone.
- `Compression.dfy`, `Codec.dfy`, `CodecRoundTrip.dfy`, `PacketCodec.dfy`: the
  wire format, what decoding makes of encoding, and the codec object;
  `CodecGrammar.dfy`: which datagrams are accepted at all, as a grammar on bytes.
- `ErasureCode.dfy`, `Fec.dfy`: code, encoder and decoder of forward error
  correction. `FecEncoding.dfy`: what the encoder sends; `FecSoundness.dfy`:
  what the decoder may emit; `FecNumbering.dfy`: which numberings are sound;
  `FecRecovery.dfy`: what it recovers; `FecFeedback.dfy`: recovered packets
  re-enter; `FecTransport.dfy`: the link to the transport.
- `Listener.dfy`: the session tables and the object. `ListenerRegions.dfy`:
  its runs region by region; `ListenerRaces.dfy`: runs that end badly.
- `Handshake.dfy`: the client's side of handshake and migration.
  `Agreement.dfy`: clients, listener and connections together; `Routing.dfy`:
  how long the listener routes a client; `AgreementRuns.dfy`: runs in which it
  stops.
- `VirtualConn.dfy`: the buffered swap under interleaving; `SwapOrder.dfy`: the
  order of what it replays.
- `Base.dfy`, `BigEndian.dfy`: shared helpers.

Cipher, zstd and Reed-Solomon coder are parameters. Their laws (`Lawful`,
`Inverse`, `Mds`, `Total`) are hypotheses of the theorems that need them; a tagging
cipher and an additive one-parity code show that two of them can be met.

## What the proofs show about the code

Main results: while the delivered queue has room, what `Read` returns is a
prefix of what was accepted for sending, and it is known exactly after which
calls of `Write` it stays a prefix of what the caller passed; nothing is
acknowledged that was not received; the sender drains in bounded time; from any
state in which nothing lacking was given up a transfer can be completed;
decoding undoes encoding and accepts exactly the datagrams of a grammar; any k
shards recover a block, and it is known exactly for which numberings forward
error correction emits only what was sent; rebuilds are paid for by parity
packets; the session tables are one map, and it is known exactly which step
leaks or strands an entry; it is known exactly which steps take a client's
address from its connection and its session from that connection, in every
state that can be reached, and what a client may conclude from a SYN-ACK; an
accepted write survives swaps exactly if none of them begins on a buffered
write.

Where the code does something other than its names and comments suggest, the
model follows the code:

- The window really is respected: the `break` after 30 seconds
  (pkg/mtp/arq.go:256) leaves only the `select`, nothing is forced through.
- A failed socket write leaves the packet queued (pkg/mtp/arq.go:285-305), so
  `Write` reports a segment as unsent that is delivered later. If it was not
  the last segment, the rest is missing from the stream, and a caller that
  writes on makes `Read` return bytes that are no prefix of those passed
  (`StreamReach.SkippedSegmentIsMissing`).
- `packetsLost` counts every packet a cumulative ACK covers
  (pkg/mtp/arq.go:357-363), not lost packets.
- An ACK can cover a packet that `deliverPacket` dropped for lack of room.
- Packets below length 64 do not survive the long header: the length field
  then is a one-byte integer in a two-byte slot (pkg/mtp/packet.go:512-515).
  The migration answer `OK` is such a packet, and undecodable; a migration
  succeeds by the connection's own answer to a second SYN.
- A full segment of 1200 bytes does not fit a shard behind its length field,
  so forward error correction never recovers one.
- The encoder's 50 ms flush of a partly filled block yields parity that is
  wrong for some way in which the block is filled later.
- A burned sequence number (encoding failed) inside an encoder block puts the
  later packets of that block into wrong places. The decoder then emits a
  packet nobody sent, exactly if enough shards of the block's group can arrive
  (`FecNumbering.NumberingSoundIff`, `FecNumbering.BurnedNumberMisleads`).
- A late copy of a migration SYN moves the session back to its old address.
- All clients of one secret authenticate with that secret as session id
  (pkg/mtp/conn.go:505), so an AUTH for a live session id is the ordinary case
  of a second client, a reconnect or a late copy of a SYN. It takes the session
  from the connection that has it and leaves a connection that no removal of
  its own finds.
- RemoveConnection goes by session id (pkg/mtp/listener.go:230): when the older
  of two connections with one id closes, the newer one is taken out of both
  tables and its client is unreachable
  (`AgreementRuns.OldCloseRemovesNewer`).
- A removal that comes between the regions of a migration of its session leaves
  the new address bound for good, and can delete the entry of another client
  that took over the old address (`ListenerRaces`).
- An address that serves a client of another session id while the first one's
  connection is known gives that client the first session. Clients of one
  secret share their id and do not get there.
- A swap that begins while another one's buffer holds a write throws it away,
  and a writer can overtake a replay that is not finished.

## Model

| member | source | states |
|---|---|---|
| `RttEstimator.SampleKeepsWithin` | pkg/mtp/arq.go:618-637 | one sample from [lo, hi] keeps srtt in [lo - 14, hi], the variance under its bound and the timeout in [10 ms, 5 s], in spite of truncating division |
| `RttEstimator.RunStaysWithin` | pkg/mtp/arq.go:601-637 | in every run of samples from [lo, hi] and timeout doublings from the initial state, srtt, variance and timeout keep these bounds |
| `RttEstimator.ConstantSampleSettles` | pkg/mtp/arq.go:618-637 | from any state, after a stated finite number of equal samples r (timeouts interleaved) every update leaves the timeout in the clamp of [r - 14, r + 48] |
| `RttEstimator.SettledStays` | pkg/mtp/arq.go:618-637 | a settled estimator stays settled under the same sample |
| `RttEstimator.RunIsAverage` | pkg/mtp/arq.go:618-637 | in every run srtt is the exact moving average of the samples with gain 1/8, at most 14 ns below it |
| `RttEstimator.RunIsDeviation` | pkg/mtp/arq.go:618-637 | in every run rttvar is the exact moving deviation with gain 1/4, at most 6 ns below it |
| `RttEstimator.TimeoutDoubles` | pkg/mtp/arq.go:599-637 | the timeout is srtt + 4 * rttvar, at least 10 ms, times 2^k after k timeouts since the last sample, at most 5 s |
| `CongestionWindow.RunStaysBounded` | pkg/mtp/arq.go:396-425 | in every run of ACKs with arbitrary targets and timeouts the window stays in [16, 2048] |
| `CongestionWindow.TargetMoves` | pkg/mtp/arq.go:396-417 | in every run an ACK with a target moves the window toward it by a tenth or 16 packets up, a twentieth or 8 down, within 16 and 2048 |
| `CongestionWindow.SlowStartDoubles` | pkg/mtp/arq.go:418-421 | below the threshold n ACKs without an estimate multiply the window by 2^n, up to 2048 |
| `CongestionWindow.ThresholdGrowsByOne` | pkg/mtp/arq.go:421-424 | from the threshold on n such ACKs add n, up to 2048 |
| `CongestionWindow.TimeoutCuts` | pkg/mtp/arq.go:596-600 | in every run a cycle with a late packet cuts window and threshold to 85 hundredths, rounded down, at least 16 |
| `CongestionWindow.StepKeepsBand` | pkg/mtp/arq.go:401-417 | the band around a constant target is never left |
| `CongestionWindow.StepApproachesBand` | pkg/mtp/arq.go:401-417 | outside the band every ACK strictly lowers the number of ACKs still needed |
| `CongestionWindow.WindowConverges` | pkg/mtp/arq.go:396-417 | from the window of any run, once ACKs find the same raw target, any integer, the window is in the band around the clamped target after AcksToBand ACKs, at most 254, and ever after |
| `Pacing.Pacer.constructor` | pkg/mtp/pacer.go:22-30 | a new bucket is full |
| `Pacing.Pacer.TryConsume` | pkg/mtp/pacer.go:59-78 | the object refills and caps as the bucket function says, and grants iff a whole token is there |
| `Pacing.Pacer.SetRate` | pkg/mtp/pacer.go:81-85 | only the rate changes, no time is credited |
| `Pacing.Pacer.SetBurst` | pkg/mtp/pacer.go:88-95 | the new cap applies to the tokens held |
| `Pacing.TryKeepsValid` | pkg/mtp/pacer.go:59-78 | tokens stay in [0, maxTokens]; grant plus remainder are covered by tokens held and time passed, and by the burst |
| `Pacing.TryGrantedIff` | pkg/mtp/pacer.go:59-78 | a try is granted iff the smaller of maxTokens and tokens + elapsed * rate is at least 1; it leaves exactly that, less the token granted |
| `Pacing.TokenComesInTime` | pkg/mtp/pacer.go:33-78 | in every run with rates of at least r and bursts of at least 1: if no try was granted since a moment, a try 1/r seconds later is, however many failed in between |
| `Pacing.EngineTokenWithinMillisecond` | pkg/mtp/pacer.go:33-46 | after any history of the engine's pacer, if no waiting Send got a token for a millisecond, the next try does |
| `Pacing.GrantsPaidFor` | pkg/mtp/pacer.go:59-95 | over any run the grants are at most the tokens held plus rate limit times elapsed time |
| `Pacing.WindowGrantsBounded` | pkg/mtp/pacer.go:59-95 | in any window of length d at most B + R * d grants, whatever settings up to R and B are interleaved |
| `Pacing.PacingApplied` | pkg/mtp/arq.go:641-667 | one updatePacing call sets the clamped rate and burst |
| `Engine.PacingMatches` | pkg/mtp/arq.go:641-667 | the rate set is the estimated bandwidth in packets of 1200 bytes per second within [1000, 50000], the burst the bandwidth-delay product in packets within [8, 128]; without estimates nothing changes |
| `Pacing.EngineWindowBounded` | pkg/mtp/arq.go:641-667 | the engine's pacer grants at most 128 + 50000 * d in any window, after any history |
| `ArqReceiver.DrainTracks` | pkg/mtp/arq.go:474-482 | the drain loop stops at the least number that never arrived and hands over everything below it, in order |
| `ArqReceiver.AcceptTracks` | pkg/mtp/arq.go:466-486 | one arrival keeps: recvNext is the least missing number, recvBuf what arrived above it, everything below was handed over once in order |
| `ArqReceiver.TracksIsFunctional` | pkg/mtp/arq.go:466-486 | the set of arrivals determines recvNext, recvBuf and what was handed over |
| `ArqReceiver.ReceiverRefinesLeastGap` | pkg/mtp/arq.go:466-499 | after any sequence of arrivals the receiver is the least-gap specification |
| `ArqReceiver.ArrivalOrderIrrelevant` | pkg/mtp/arq.go:466-499 | two arrival sequences with the same set of numbers end in the same state |
| `Stream.SegmentsPartition` | pkg/mtp/conn.go:362-382 | the segments of Write join to its argument; all but the last have 1200 bytes, none is empty |
| `Stream.WriteReport` | pkg/mtp/conn.go:348-384 | the engine owns a prefix covering the reported bytes, and exactly those iff no socket write failed; no error iff all bytes are reported, otherwise that of the first segment Send failed on |
| `Stream.ReadPreservesStream` | pkg/mtp/conn.go:287-345 | Read moves as many bytes as fit from the front of the leftovers, or else of the next packet, to the caller and changes nothing else |
| `Stream.MtpConn.Read` | pkg/mtp/conn.go:287-334 | leftovers first, then the next packet; nothing is taken from a closed connection |
| `Stream.MtpConn.CopyPayload` | pkg/mtp/conn.go:337-345 | what does not fit is appended to the leftovers |
| `Stream.MtpConn.Write` | pkg/mtp/conn.go:348-384 | the loop reports and queues what the specification says for every sequence of outcomes of Send |
| `ReceiveSide.ArriveKeepsInv` | pkg/mtp/arq.go:466-499 | a DATA packet keeps least-gap tracking, ACK obligation, ACK honesty and the stream |
| `ReceiveSide.FireKeepsInv` | pkg/mtp/arq.go:493-497 | any timer callback keeps the same, also a stale one after a threshold flush |
| `ReceiveSide.ReadKeepsStream` | pkg/mtp/conn.go:287-345 | a Read keeps: bytes returned and held back are the bytes of the packets taken |
| `ReceiveSide.RunKeepsInv` | pkg/mtp/arq.go:466-538 | in every run fewer than 32 packets are owed an ACK, an owed ACK has a live timer, ACK numbers never decrease and SACK lists report only what arrived above them |
| `ReceiveSide.AcksReportTheBuffer` | pkg/mtp/arq.go:515-538 | each step sends at most one ACK, with recvNext and a part of recvBuf strictly above it |
| `ReceiveSide.ArrivalAcknowledgedIff` | pkg/mtp/arq.go:466-498 | in every run a DATA packet is acknowledged at once iff its number is above recvNext or it makes 32 packets owed; the ACK carries recvNext and min(32, buffered) different buffered numbers; otherwise one more is owed under an armed timer |
| `ReceiveSide.GapReportedAtOnce` | pkg/mtp/arq.go:484-491 | a packet above recvNext is answered at once with recvNext unmoved, and while at most 32 are buffered the SACK list is exactly those |
| `ReceiveSide.TimerAcknowledges` | pkg/mtp/arq.go:493-497 | a timer callback sends exactly one ACK for all that is owed |
| `ReceiveSide.ChannelFills` | pkg/mtp/arq.go:502-512 | of what an arrival hands over the channel takes as many as it has places for, from the front |
| `ReceiveSide.StreamIntactIffRoom` | pkg/mtp/arq.go:502-512 | the stream is intact iff the delivered channel never ran out of room; one packet was handed over per number below recvNext |
| `ReceiveSide.OverflowsIffShortOfRoom` | pkg/mtp/arq.go:502-512 | an arrival overflows iff it hands over more than the free places |
| `ReceiveSide.OverflowLosesAcknowledgedPacket` | pkg/mtp/arq.go:502-512 | a run in which a dropped packet is acknowledged |
| `ArqSender.ProcessAllEffects` | pkg/mtp/arq.go:355-377 | acknowledging a list removes exactly its packets and touches no other, in any order and with repetitions |
| `ArqSender.HandleAckEffects` | pkg/mtp/arq.go:350-377 | an ACK removes a packet iff it is below the number or listed, and counts every cumulative one as lost |
| `ArqSender.HandleAckHealthy` | pkg/mtp/arq.go:350-462 | an ACK keeps window, timeout, flight size and delivery counters in bounds |
| `ArqSender.TickKeepsHealthy` | pkg/mtp/arq.go:558-605 | a retransmission cycle keeps the same bounds |
| `ArqSender.TickSpendsBudget` | pkg/mtp/arq.go:558-605 | a cycle that finds a late packet strictly lowers the sum of 9 - retries, even when re-encoding fails |
| `Estimates.CycleIs` | pkg/mtp/arq.go:558-605 | packet by packet: later than the timeout and retried eight times means given up, fewer means one more retry and, if it can be encoded, sent again now; all others stay; with any late packet timeout and window change once, otherwise nothing does |
| `Estimates.RetransmittedTellsNothing` | pkg/mtp/arq.go:434-462 | acknowledging a retried packet changes only the flight and the byte count |
| `Estimates.SampleUpdates` | pkg/mtp/arq.go:434-462 | acknowledging any other packet samples its round trip, lowers minRTT to it, and moves the bandwidth up to the measured rate or by 15 hundredths of the excess down |
| `Estimates.AckEstimates` | pkg/mtp/arq.go:350-426 | one ACK, in any visiting order, samples each packet it covers that was not retried, once, and moves the window once toward 1.5 times bandwidth times minRTT in thousands of bytes |
| `Estimates.EstimatorFollowsRun` | pkg/mtp/arq.go:350-637 | in every run of the send half the estimator is where the samples and timeouts of the run lead it, so that the theorems of RttEstimator speak of it |
| `Estimates.SubmissionIs` | pkg/mtp/arq.go:261-292 | in every run a submission takes the next number and puts exactly that packet in flight, with its payload, time, no retries and the bytes delivered so far |
| `Estimates.SamplesUnambiguous` | pkg/mtp/arq.go:434-462 | in every run each sample is the time since submission of an acknowledged packet that was transmitted exactly once |
| `Estimates.DeliveredIsAcknowledged` | pkg/mtp/arq.go:434-440 | in every run bytesDelivered is the size of all acknowledged payloads, each once |
| `SendSide.AckShrinks` | pkg/mtp/arq.go:350-377 | what leaves flight by an ACK becomes acknowledged, and the loss count grows by no more than that |
| `SendSide.TickShrinks` | pkg/mtp/arq.go:575-582 | what leaves flight by a cycle is exactly the late packets without retransmissions left |
| `SendSide.TickAges` | pkg/mtp/arq.go:542-605 | with punctual cycles a packet's age stays below MaxRTO + MaxRTO/4 per retry |
| `SendSide.StepKeepsInv` | pkg/mtp/arq.go:261-377 | every send-half region keeps conservation, counters, transmission budget and age bounds |
| `SendSide.RunConserves` | pkg/mtp/arq.go:261-292 | every number in use is exactly one of burned, in flight, acknowledged, abandoned; at most nine transmissions each; packetsLost <= packetsSent - in flight; delivered counters never underflow; window and timeout bounds |
| `SendSide.InFlightTimeBounded` | pkg/mtp/arq.go:542-609 | with cycles at most MaxRTO/4 apart no packet is in flight for more than 9 * (5 s + 1.25 s) |
| `SendSide.BlockedSendReleased` | pkg/mtp/arq.go:239-259 | a writer waiting alone finds the window open after that time, whatever ACKs come |
| `Transport.StepKeepsInv` | pkg/mtp/arq.go:332-347 | every step of the two endpoints and the network keeps: all copies are genuine, all ACKs honest, all acknowledged packets received |
| `Transport.HandedWasSubmitted` | pkg/mtp/arq.go:466-482 | the i-th packet handed over is the one submitted as number i |
| `Transport.ReadIsPrefixOfWritten` | pkg/mtp/arq.go:466-512 | in every run without overflow, what Read returned is a prefix of the accepted bytes before the first burned number, also after packets were abandoned |
| `StreamRuns.StepKeepsInv` | pkg/mtp/conn.go:348-384 | every step of a run with one writer, segment by segment, keeps: the engine's log is what the outcomes of the calls say, whole and up to the first burned number |
| `StreamRuns.ReadIsPrefixOfTaken` | pkg/mtp/conn.go:287-384 | in every run the accepted payloads are the segments the calls left with the engine, and without overflow Read returned a prefix of those before the stream ended |
| `StreamRuns.FinishedIsWritten` | pkg/mtp/conn.go:362-384 | a finished call of a run reports and leaves queued what the Write loop computes, whatever Send would have answered next |
| `StreamRuns.SkipsIff` | pkg/mtp/conn.go:373-382 | a call skipped a segment iff it returned a socket error with more than 1200 bytes left to report |
| `StreamRuns.WholeIff` | pkg/mtp/conn.go:362-384 | a finished call that did not end the stream is taken whole if it skipped nothing, and loses bytes if it did |
| `StreamRuns.StreamSafety` | pkg/mtp/conn.go:287-384 | with one writer, in every run without overflow in which no call but the last skipped a segment, Read returned a prefix of the bytes passed to Write |
| `StreamReach.DeliverableIsReached` | pkg/mtp/conn.go:287-384 | every possible list of calls is made by a run without overflow in which Read returns all that can be delivered of it |
| `StreamReach.NextWriteSafeIff` | pkg/mtp/conn.go:348-384 | after the calls of any run: one more Write keeps Read's output a prefix of the bytes passed, in every run, iff no call skipped a segment; after the end of the stream iff what was delivered is such a prefix |
| `StreamShape.NextWriteShapeIff` | pkg/mtp/conn.go:348-384 | the same for all calls of these lengths and outcomes, whatever bytes they carry: iff no call skipped a segment, or, after the end of the stream, nothing was delivered after a call that did |
| `StreamReach.SkippedSegmentIsMissing` | pkg/mtp/arq.go:285-305 | a run: the socket write of the first of two segments fails, the caller writes one more byte, and Read returns the first segment and that byte |
| `Transport.AcknowledgedMeansReceived` | pkg/mtp/arq.go:350-377 | every acknowledged packet was handed over or waits in recvBuf, under stale and reordered ACKs |
| `Progress.Retransmit` | pkg/mtp/arq.go:558-598 | after one timeout a cycle puts every packet in flight on the wire again and gives up none that is lacking |
| `Progress.DeliverAll` | pkg/mtp/arq.go:466-486 | delivering the lacking packets lowest first brings recvNext to sendSeq, without overflow if there is room |
| `Progress.ProvokeAck` | pkg/mtp/arq.go:488-498 | once all is delivered, a duplicate makes the receiver acknowledge everything, at once or by its timer |
| `Progress.AckAll` | pkg/mtp/arq.go:355-365 | an ACK for everything empties the flight |
| `Progress.NoDeadlock` | pkg/mtp/arq.go:542-598 | from every reachable state in which everything lacking is in flight with a retransmission left, some finite continuation delivers and acknowledges all |
| `Engine.ArqEngine.constructor` | pkg/mtp/arq.go:177-225 | the initial values of both halves |
| `Engine.ArqEngine.Send` | pkg/mtp/arq.go:229-297 | closed, full, failed and queued outcomes; a failed encoding uses up a number; the window is respected at insertion; the packet enters the encoder's block |
| `Engine.ArqEngine.UpdateRtt` | pkg/mtp/arq.go:618-638 | the object computes the estimator function |
| `Engine.ArqEngine.ProcessAckedPacket` | pkg/mtp/arq.go:434-462 | the object computes the function for one acknowledged packet |
| `Engine.ArqEngine.HandleAck` | pkg/mtp/arq.go:350-426 | cumulative part in some order, then SACK, pacing, window; the receive half is untouched |
| `Engine.ArqEngine.HandleCumulative` | pkg/mtp/arq.go:356-365 | the map loop visits each covered packet once, in some order |
| `Engine.ArqEngine.HandleSack` | pkg/mtp/arq.go:368-377 | listed packets not in flight are skipped |
| `Engine.ArqEngine.UpdatePacing` | pkg/mtp/arq.go:641-667 | the pacer gets the clamped rate and burst, or nothing without an estimate |
| `Engine.ArqEngine.UpdateWindow` | pkg/mtp/arq.go:396-425 | the object computes the window function |
| `Engine.ArqEngine.RetransmitCycle` | pkg/mtp/arq.go:558-607 | one cycle on the object is Tick, and what goes on the wire is Resent |
| `Engine.ArqEngine.RetryAll` | pkg/mtp/arq.go:575-598 | each late packet is given up, retried, or kept with its old time if it cannot be encoded |
| `Engine.ArqEngine.DeliverPacket` | pkg/mtp/arq.go:502-512 | kept if there is room, dropped otherwise or when closed |
| `Engine.ArqEngine.SendAck` | pkg/mtp/arq.go:515-538 | recvNext and min(32, buffered) distinct buffered numbers |
| `Engine.ArqEngine.FlushAck` | pkg/mtp/arq.go:676-683 | disarms the timer, clears the debt, reports the buffer |
| `Engine.ArqEngine.HandleData` | pkg/mtp/arq.go:466-499 | the object computes ReceiveData; an ACK is sent iff the number is above recvNext or it makes 32 owed, with min(32, buffered) numbers |
| `Engine.ArqEngine.AcceptData` | pkg/mtp/arq.go:470-486 | in-order, out-of-order and old packets |
| `Engine.ArqEngine.DrainBuffer` | pkg/mtp/arq.go:474-482 | the loop over recvBuf is Drain, and the channel gets what it hands over as far as there is room |
| `Engine.ArqEngine.HandlePacket` | pkg/mtp/arq.go:321-347 | each type touches only its half; a DATA packet is answered iff its number is above recvNext or it makes 32 owed; a closed engine ignores everything |
| `Engine.ArqEngine.Close` | pkg/mtp/arq.go:687-725 | clears flight and timer once |
| `ErasureCode.AdditiveRecovers` | pkg/mtp/fec.go:278 | any k of the k + 1 shards of the additive code rebuild the codeword |
| `ErasureCode.AdditiveIsMds` | pkg/mtp/fec.go:33 | the hypothesis on the code can be met for every number of data shards |
| `ErasureCode.AdditiveIsTotal` | pkg/mtp/fec.go:33 | the additive code also meets the hypothesis that any k shards fit a codeword |
| `Fec.ShardRoundTrip` | pkg/mtp/fec.go:282-286 | a shard gives its payload back iff the payload has 1 to 1198 bytes |
| `Fec.ShardBytes` | pkg/mtp/fec.go:95-104 | a shard byte by byte: two bytes of length, up to 1198 of payload, zeros up to 1200 |
| `Fec.FecEncoder.FlushLocked` | pkg/mtp/fec.go:115-141 | the object computes the flush and sends the parity packets in order |
| `Fec.FecEncoder.Add` | pkg/mtp/fec.go:83-107 | the object computes the block step and keeps its buffer size |
| `Fec.FecEncoder.Reconfigure` | pkg/mtp/fec.go:52-69 | another shard count starts over, a rejected or equal one changes nothing |
| `Fec.FecDecoder.CheckRecover` | pkg/mtp/fec.go:263-295 | the object computes the recovery of a group |
| `Fec.FecDecoder.Emit` | pkg/mtp/fec.go:280-289 | payloads of the data shards whose length field is acceptable, with their numbers |
| `Fec.FecDecoder.Add` | pkg/mtp/fec.go:236-261 | a free place is filled and the group examined; otherwise the group only comes to exist |
| `Fec.FecDecoder.AddData` | pkg/mtp/fec.go:214-229 | the group and place follow from number and block size |
| `Fec.FecDecoder.AddParity` | pkg/mtp/fec.go:232-244 | parity shards go behind the data shards |
| `Fec.FecDecoder.Expire` | pkg/mtp/fec.go:253-257 | the timer removes whatever group has that start |
| `Fec.FecDecoder.Reconfigure` | pkg/mtp/fec.go:186-201 | another shard count discards all groups |
| `FecEncoding.PacketKeepsBlock` | pkg/mtp/fec.go:83-107 | one packet with any number extends the open block, or completes it and sends exactly its parity |
| `FecEncoding.EncoderSendsFullBlocks` | pkg/mtp/fec.go:83-141 | for any numbering, without flush a packet is sent iff it is parity of k packets in a row from a multiple of k in feeding order |
| `FecEncoding.TimerArmedIff` | pkg/mtp/fec.go:83-141 | the flush timer is armed iff a block is partly filled |
| `FecEncoding.ParityTellsShard` | pkg/mtp/fec.go:133 | blocks that differ in one shard cannot share their first parity shard |
| `FecEncoding.EarlyFlushHarmlessIff` | pkg/mtp/fec.go:94-141 | a flush is harmless for every later completion of the block iff there is nothing to flush |
| `FecEncoding.EarlyFlushMisrebuilds` | pkg/mtp/fec.go:109-295 | for every code of which any k shards fit a codeword: after a flush of a partly filled block there is a completion for which, whichever packet is lost, the others and the first parity shard rebuild a shard that is not the lost packet's |
| `FecEncoding.PartialFlushCorrupts` | pkg/mtp/fec.go:109-141 | a concrete early flush that makes the decoder emit bytes nobody sent |
| `FecSoundness.FedIsLog` | pkg/mtp/arq.go:261-292 | the encoder is fed the submitted packets from its first number on, each once, in increasing order; burned numbers are left out |
| `FecSoundness.EmissionsExact` | pkg/mtp/fec.go:280-289 | emitting a codeword yields exactly the payloads of 1 to 1198 bytes under the numbers of their places |
| `FecSoundness.RebuildOfCodeword` | pkg/mtp/fec.go:263-295 | a group that agrees with a codeword and holds enough shards emits exactly what that codeword says about it |
| `FecSoundness.RebuildIsGenuine` | pkg/mtp/fec.go:263-295 | a group of a harmless block emits only payloads submitted under their numbers |
| `FecSoundness.DataSlot` | pkg/mtp/fec.go:218-219 | the place AddData computes is the shard's place |
| `FecSoundness.ParitySlot` | pkg/mtp/fec.go:232-244 | the place AddParity computes is the parity shard's place |
| `FecSoundness.StepKeepsSound` | pkg/mtp/fec.go:214-295 | every arrival and expiry keeps the groups sound and emits only genuine payloads, if every block is harmless |
| `FecSoundness.DecoderIsSound` | pkg/mtp/fec.go:214-295 | if every block is harmless the decoder emits only what was submitted, for any numbering, first number, arrival order, duplication, loss and expiry |
| `FecRecovery.AnyShardsRecover` | pkg/mtp/fec.go:214-295 | completeness: once k different shards of a gap-free block have arrived, in any order and among anything else, before its group's timer, every packet of the block of 1 to 1198 bytes has arrived or was emitted |
| `FecNumbering.GapMisses` | pkg/mtp/fec.go:83-107 | a block with a gap leaves out one of the k numbers from its first on |
| `FecNumbering.HarmfulBlock` | pkg/mtp/fec.go:83-295 | for any code and any block that is not harmless: arrivals of sent packets only, after which the decoder has emitted a packet nobody submitted |
| `FecNumbering.NumberingSoundIff` | pkg/mtp/fec.go:83-295 | for any code, numbering and first number: emissions are genuine under all payloads and arrivals iff every block is gap-free or its group can never hold k shards |
| `FecNumbering.NoBurnIsHarmless` | pkg/mtp/fec.go:83-107 | without burned numbers every block is harmless, wherever the encoder starts |
| `FecNumbering.BurnedNumberMisleads` | pkg/mtp/arq.go:261-274 | a run with number 1 burned in which the decoder emits packet 2 as packet 1 |
| `FecFeedback.FeedKeepsWellFormed` | pkg/mtp/fec.go:214-261 | `received` is the number of shards present, and no stored group is complete |
| `FecFeedback.RebuildUsesParity` | pkg/mtp/fec.go:264-276 | a group that must be rebuilt holds a parity shard |
| `FecFeedback.FeedAccount` | pkg/mtp/fec.go:214-295 | parity in store pays for each rebuild, and a rebuild emits at most k payloads |
| `FecFeedback.RebuildsPaidByParity` | pkg/mtp/arq.go:211-218 | in every interleaving rebuilds <= parity packets received, whatever packets hold |
| `FecFeedback.TaskLowersWeight` | pkg/mtp/arq.go:211-218 | every re-entering packet lowers the work left |
| `FecFeedback.FeedbackTerminates` | pkg/mtp/arq.go:211-218 | without new packets a bounded number of re-entries ever happens, in any order |
| `FecTransport.RecoveredIsGenuine` | pkg/mtp/arq.go:337-346 | for the log of any run, with or without burned numbers: if every block is harmless, what the decoder recovers is an arrival the transport allows |
| `Compression.FrameRoundTrip` | pkg/compression/compression.go:136-203 | decompressing a frame gives the data back, stored or compressed |
| `Compression.ShorterBodyIsCompressedFrame` | pkg/mtp/packet.go:246-286 | a body other than the payload is shorter and a compressed frame, never a stored one |
| `Compression.CompressedIff` | pkg/mtp/packet.go:246-286 | a payload is carried compressed iff compression is on, it reaches minSize and 64 bytes, and shrinks below nine tenths; byte by byte what is carried then |
| `Compression.BodyRestoredIffEnabled` | pkg/mtp/packet.go:289-313 | a flagged body is restored iff the receiver has compression enabled |
| `Compression.Compressor.Compress` | pkg/compression/compression.go:136-179 | the array filled by index is the frame |
| `Compression.Compressor.Fill` | pkg/compression/compression.go:171-178 | flag, size and body at their places |
| `Compression.Compressor.Decompress` | pkg/compression/compression.go:182-203 | short, stored, compressed and malformed frames; a bad stored size is a panic |
| `Codec.CompressedFlagLaws` | pkg/mtp/packet.go:353-356 | setting and clearing the compression flag are inverse, idempotent, and leave the SACK flag alone |
| `CodecRoundTrip.FlagTellsFrame` | pkg/mtp/packet.go:348-359 | the flag is on the wire iff the body is a compressed frame |
| `CodecRoundTrip.SackRoundTrip` | pkg/mtp/packet.go:376-383 | the SACK list comes back if flagged, and nothing otherwise |
| `CodecRoundTrip.ParsePlaintext` | pkg/mtp/packet.go:700-743 | parsing an encoded plaintext gives the packet back |
| `CodecRoundTrip.VarintRoundTrip` | pkg/mtp/packet.go:512-549 | the value comes back; it takes one byte below 64 and two from there on |
| `CodecRoundTrip.LongSpanExact` | pkg/mtp/packet.go:568-642 | the decoder's ciphertext offset is the encoder's iff the length value is at least 64 |
| `CodecRoundTrip.ShortEncryptedPart` | pkg/mtp/packet.go:644-671 | the short header gives the ciphertext back |
| `CodecRoundTrip.SealedOpens` | pkg/mtp/packet.go:385-402 | opening gives the plaintext back, and sizes agree |
| `CodecRoundTrip.DecodeEncode` | pkg/mtp/packet.go:342-744 | type, number, ack, flags, payload and SACK list come back in both header forms |
| `CodecRoundTrip.ShortInitialRejected` | pkg/mtp/packet.go:459-473 | below length 64 a lawful cipher exists that rejects what the decoder reads |
| `CodecRoundTrip.InitialRoundTripsIff` | pkg/mtp/packet.go:411-473 | a handshake packet survives under every lawful cipher iff its length field is at least 64 |
| `CodecRoundTrip.ElevenBytesSuffice` | pkg/mtp/packet.go:459-465 | without SACK and compression the length field reaches 64 iff the payload has at least 11 bytes |
| `CodecRoundTrip.ReencodingIsStable` | pkg/mtp/arq.go:584-592 | any number of encodings of one packet object all decode to the original |
| `CodecRoundTrip.OneSidedCompression` | pkg/mtp/packet.go:289-313 | with compression at the sender only, a packet arrives intact iff it did not shrink |
| `CodecGrammar.DecodesIff` | pkg/mtp/packet.go:553-744 | for every datagram and every cipher: Decode accepts it as a packet iff it is of the grammar: our connection id (or one of another length) in one of two header forms, length field, cipher acceptance, and every field, flag, body and SACK number at its byte |
| `CodecGrammar.EncryptedPartIff` | pkg/mtp/packet.go:553-671 | the encrypted part is found iff the header is of one of the two forms on bytes |
| `CodecGrammar.ForeignRejectedIff` | pkg/mtp/packet.go:553-655 | too short, wrong long type or foreign connection id: exactly which datagrams are rejected with each error |
| `CodecGrammar.SealedRejectedIff` | pkg/mtp/packet.go:673-698 | exactly which encrypted parts are too short, fail to authenticate, or open to less than a header |
| `CodecGrammar.PlaintextRejectedIff` | pkg/mtp/packet.go:700-728 | exactly which plaintexts are rejected for their length or their compressed body, and which make the code panic |
| `CodecGrammar.WireIs` | pkg/mtp/packet.go:404-509 | what is sent, byte by byte: types 3 and 4 in the long form, all others in the short one |
| `PacketCodecs.PacketCodec.CompressPayload` | pkg/mtp/packet.go:246-286 | the object, with its lazily made compressor, computes the body |
| `PacketCodecs.PacketCodec.Encode` | pkg/mtp/packet.go:342-509 | the bytes are Wire, the only change to the packet is its flag; fails iff the random source does or the length field overflows |
| `PacketCodecs.PacketCodec.FillPlaintext` | pkg/mtp/packet.go:366-383 | header, body and trailer at the moving offset |
| `PacketCodecs.PacketCodec.FillSack` | pkg/mtp/packet.go:376-383 | count and numbers behind the body |
| `PacketCodecs.PacketCodec.EncodeVarint` | pkg/mtp/packet.go:512-522 | two bytes in all three cases |
| `PacketCodecs.PacketCodec.LongHeader` | pkg/mtp/packet.go:416-473 | the Initial form, field by field |
| `PacketCodecs.PacketCodec.ShortHeader` | pkg/mtp/packet.go:481-506 | the 1-RTT form |
| `PacketCodecs.PacketCodec.Decode` | pkg/mtp/packet.go:553-744 | the object computes Decode, whose accepted datagrams and errors CodecGrammar gives on bytes |
| `PacketCodecs.PacketCodec.DecodeLongHeader` | pkg/mtp/packet.go:568-642 | the moving offset finds the span, or the error the specification names |
| `PacketCodecs.PacketCodec.ParsePlaintext` | pkg/mtp/packet.go:700-743 | fields, decompression and SACK list of a plaintext |
| `PacketCodecs.PacketCodec.ReadSack` | pkg/mtp/packet.go:730-741 | the listed numbers, none if the trailer is cut short |
| `ListenerRegions.StepKeepsWired` | pkg/mtp/listener.go:167-328 | every region, whatever interleaves, keeps: a table entry's connection is at home under its address (the old one while a migration's table update is pending), sessions name their connections, an address being handled is not in the table |
| `ListenerRegions.StepKeepsOrderly` | pkg/mtp/listener.go:167-328 | every region keeps, unless a removal hits a migration: live sessions are in the table, a connection under removal is in the table without its session and not migrating, and each connection is removed at most once |
| `ListenerRegions.ConsistentIff` | pkg/mtp/listener.go:281-293 | in every run without a removal hitting a migration the tables are consistent iff no migration is between its write of remoteAddr and its table update |
| `ListenerRegions.LeakIff` | pkg/mtp/listener.go:198-328 | whatever interleaves: a region leaks an entry iff it is the table update of a migration whose session is gone and that no removal will undo, or the last region of an AUTH that takes a live session from a connection no removal deals with |
| `ListenerRegions.OrderlyRunsDoNotLeak` | pkg/mtp/listener.go:167-328 | no run without race and reuse leaks |
| `ListenerRegions.BijectiveIff` | pkg/mtp/listener.go:167-328 | in every run without race and reuse the two tables list the same connections iff nothing is half done |
| `ListenerRegions.StrandedIff` | pkg/mtp/listener.go:198-328 | whatever interleaves: a region makes a live session unreachable iff it deletes the entry of another connection's live session under an address read earlier, or completes an AUTH whose entry is gone |
| `ListenerRegions.TablesRefineSimpleMap` | pkg/mtp/listener.go:167-328 | in every run without a removal hitting a migration, sessions and addresses are those of one map on which each handler acts at one moment, and each session is reachable at its address outside a table update |
| `ListenerRegions.AuthInRegions` | pkg/mtp/listener.go:214-226 | uninterrupted, the regions of an AUTH are the whole step |
| `ListenerRegions.MigrationInRegions` | pkg/mtp/listener.go:272-293 | uninterrupted, the regions of a migration are the whole step |
| `ListenerRegions.RemovalInRegions` | pkg/mtp/listener.go:314-328 | uninterrupted, the regions of a removal are the whole step |
| `ListenerRegions.RemovalDuringMigrationIff` | pkg/mtp/listener.go:264-328 | from any bijective tables, a whole removal between a migration's lookup and its updates leaves them in bijection iff it is another session's |
| `ListenerRaces.RaceLeaks` | pkg/mtp/listener.go:264-328 | a run without reuse after which, with nothing under way, an address is bound to a connection without session |
| `ListenerRaces.RaceStrands` | pkg/mtp/listener.go:264-328 | a run without reuse after which, with nothing under way, another client's live session is in no table entry |
| `ListenerRaces.ReuseLeaks` | pkg/mtp/listener.go:215-231 | a run in which an AUTH reuses a live session id and, after both removals, an address is bound to a connection without session |
| `Listening.Listener.InsertConnection` | pkg/mtp/listener.go:220-222 | the region enters a new connection under its address, over whatever was there |
| `Listening.Listener.InsertSession` | pkg/mtp/listener.go:224-226 | the region enters its session |
| `Listening.Listener.WriteAddress` | pkg/mtp/listener.go:287 | the write changes this connection's address and nothing else |
| `Listening.Listener.Rebind` | pkg/mtp/listener.go:290-293 | the region deletes the old entry, then enters the new one |
| `Listening.Listener.Unlink` | pkg/mtp/listener.go:315-320 | the region takes the session out and returns its connection, if there is one |
| `Listening.Listener.Unbind` | pkg/mtp/listener.go:324-326 | the region deletes one entry |
| `Listening.ParseIff` | pkg/mtp/listener.go:198-270 | which payload and flag ask for which session: AUTH:s without, MIGRATE:s with the migration flag, anything else for nothing |
| `Listening.Listener.OnDatagram` | pkg/mtp/listener.go:167-194 | a known address is dispatched, an unknown one gets the decoy or its SYN handled, in terms of table entries; every existing engine stays as it is, a new one is initial |
| `Listening.Listener.HandleSyn` | pkg/mtp/listener.go:198-261 | AUTH:s enters one new connection under address and session and answers s, MIGRATE:s with the flag moves exactly the connection of s, every other SYN changes nothing and gets no answer |
| `Listening.Listener.AddConnection` | pkg/mtp/listener.go:214-226 | a new connection with an initial engine enters both tables |
| `Listening.Listener.NewConn` | pkg/mtp/conn.go:60-84 | the new connection has its address, its session and an initial engine |
| `Listening.Listener.HandleMigration` | pkg/mtp/listener.go:264-311 | a live session's connection is moved and nothing else, an unknown one changes nothing; the session keeps its connection, and both halves of every engine stay as they are |
| `Listening.Listener.RemoveConnection` | pkg/mtp/listener.go:314-328 | both entries go, an unknown session changes nothing |
| `Agreement.StepKeepsInv` | pkg/mtp/listener.go:167-328 | every step of clients, listener regions, connections and network keeps: every decodable SYN-ACK names the session of the connection it comes from and goes to an address used for that session; a successful client holds a SYN-ACK addressed to its socket; only registered connections answer; without reuse a registered connection is live until its removal begins |
| `Agreement.ExchangeIsRetryLoop` | pkg/mtp/conn.go:551-577 | an exchange of a run ends with what the retry loop returns on its attempts, whatever would follow them |
| `Agreement.SynIsUnderstood` | pkg/mtp/conn.go:533-604 | the listener reads the SYN that HandshakeClient and Migrate write as the request of the run |
| `Routing.HeldKeptIff` | pkg/mtp/listener.go:264-328 | in every state that can be reached, with any race and reuse: an open connection keeps an address by a step iff it does not close, is not entered under another address, no other connection's migration leaves that address behind, and no removal deletes it, unless its own migration to it is pending |
| `Routing.LiveKeptIff` | pkg/mtp/listener.go:220-320 | in every such state: a connection keeps its session by a step iff the step enters no AUTH for that session and no removal takes it out |
| `Routing.BoundKeptIff` | pkg/mtp/listener.go:167-328 | in every such state: an address stays bound to a session's open connection by a step iff it is none of those steps |
| `Routing.LiveSinceIff` | pkg/mtp/listener.go:220-320 | in every run: a registered connection has its session now iff it had it at any earlier step and nothing took it since; a session lost is never regained |
| `Routing.ReportedStep` | pkg/mtp/conn.go:98-119 | at the step a decodable SYN-ACK reports, its connection was registered and open; it was in the table if it had its session and no removal had hit a migration; it had its session if moreover no live id had been reused |
| `Routing.SynAckMeansHeld` | pkg/mtp/conn.go:232-242 | in every run: the address a decodable SYN-ACK was sent to belongs to the open connection that sent it, if the connection was in the table at the step reported and nothing took the address since |
| `Routing.SynAckMeansBound` | pkg/mtp/conn.go:232-242 | and it is bound to the session the SYN-ACK names, if the connection also had that session at the step reported and nothing took it since |
| `Routing.SuccessMeansAnswered` | pkg/mtp/conn.go:519-641 | in every run: a client whose handshake or migration succeeded holds a SYN-ACK addressed to its current socket, from a connection of the session it names; its session id is the one it asked for if its handshake's address was used for one session only, and the SYN-ACK names that id if its socket was |
| `Routing.SuccessMeansRouted` | pkg/mtp/conn.go:519-641 | in every run: the listener routes the client's socket to that connection, open, or is one table update away, if the connection was in the table at the step its SYN-ACK reports and nothing took the address since; it is the named session's connection iff it was at that step and nothing took the session since |
| `Routing.AnswerNamesOwnIff` | pkg/mtp/listener.go:170-193 | whatever happens before and after: the connection that must answer a SYN answers with the sender's session iff the address was free, or known for a connection of that session, when the SYN arrived |
| `AgreementRuns.StaleMigrationWins` | pkg/mtp/listener.go:264-293 | a run: a client finishes two migrations, nothing is closed, and a late copy of the first migration's SYN makes its current address unknown |
| `AgreementRuns.LateAuthTakesSession` | pkg/mtp/listener.go:215-226 | a run with one client and nothing closed or raced: a late copy of its AUTH takes the session from the connection it migrated, in three regions |
| `AgreementRuns.OldCloseRemovesNewer` | pkg/mtp/listener.go:229-231 | a run with two clients of one id: the first one's connection closes, and the second one's address is unknown |
| `AgreementRuns.LostSessionAnswers` | pkg/mtp/conn.go:232-242 | a run: a connection that lost its session to a second client answers; the first client succeeds, is routed to that connection and not to its session's |
| `AgreementRuns.RaceTakesAddress` | pkg/mtp/listener.go:322-327 | a run without reuse: a removal that read an address before a migration deletes the entry of the client that joined there since |
| `AgreementRuns.SentAfterClose` | pkg/mtp/listener.go:224-250 | a run: a connection closes between its registration and the listener's SYN-ACK; the client accepts it, nothing happens after it was sent, and the address belongs to no open connection |
| `AgreementRuns.SharedAddressMisleads` | pkg/mtp/conn.go:232-242 | a run: an address serves a client of another session id, whose handshake succeeds with the first one's session |
| `Handshake.SucceedsIff` | pkg/mtp/conn.go:613-640 | success iff one of five attempts got a SYN-ACK and all before it timed out or got something else |
| `Handshake.FirstHardDecides` | pkg/mtp/conn.go:551-577 | the first attempt that neither times out nor gets garbage or another packet decides: a SYN-ACK succeeds with its payload, a failed write or read fails; without one the exchange is given up |
| `Handshake.Client.HandshakeClient` | pkg/mtp/conn.go:599-641 | writes AUTH:uuid; the session id is taken from the SYN-ACK, and only then |
| `Handshake.Client.Migrate` | pkg/mtp/conn.go:519-596 | writes MIGRATE:session with the flag; socket and address change iff it succeeds; session and both engine halves never do |
| `Handshake.Client.Exchange` | pkg/mtp/conn.go:551-577 | the retry loop computes the result function, and the first of five attempts that is neither a timeout nor something else than a SYN-ACK decides |
| `Handshake.SynAckDecodableIff` | pkg/mtp/listener.go:296-308 | a SYN-ACK is decodable under every lawful cipher iff its body, payload or compressed frame, has at least 11 bytes; below 64 bytes the body is the payload; `OK` has two |
| `VirtualConnection.StepKeepsAccounted` | pkg/transport/virtual_conn.go:40-99 | every region, with any number of overlapping swaps, keeps: each accepted write is in exactly one of connections, buffer, replay lists and thrown-out buffers |
| `VirtualConnection.SwapConservesWrites` | pkg/transport/virtual_conn.go:40-99 | in every interleaving of writers and swaps no accepted write is lost iff no swap begins on a buffer that holds one; with no swap under way each accepted write that was not thrown out reached a connection exactly once |
| `VirtualConnection.LostIff` | pkg/transport/virtual_conn.go:42-45 | nothing is thrown out in a run iff every swap finds the buffer empty |
| `VirtualConnection.OverlappingSwapsLose` | pkg/transport/virtual_conn.go:42-45 | a run with two overlapping swaps after which an accepted write is nowhere |
| `VirtualConnection.WriterOvertakesIff` | pkg/transport/virtual_conn.go:52-63 | in every reached state a new write lands before an earlier accepted one iff no swap is buffering and a replay is unfinished or a write was thrown out |
| `VirtualConnection.OvertakingRun` | pkg/transport/virtual_conn.go:52-63 | a run in which a later write lands before a replayed earlier one |
| `SwapOrder.BufferInOrder` | pkg/transport/virtual_conn.go:79-89 | in every run the buffer holds the writes that found a swap under way since a swap last began or ended, in the order of their starts |
| `SwapOrder.ReplayKeepsOrder` | pkg/transport/virtual_conn.go:52-63 | in every interleaving what a swap has put on its connection is a prefix of the writes that waited when it ended, in order, and all of them once it is done |
| `SwapOrder.SwapHandsOverInOrder` | pkg/transport/virtual_conn.go:42-57 | any list of writes made between the beginning and the end of a swap comes out as that list |
| `VirtualConnection.VirtualConn.EnterWrite` | pkg/transport/virtual_conn.go:81-89 | appended to the buffer iff a swap is under way |
| `VirtualConnection.VirtualConn.Write` | pkg/transport/virtual_conn.go:79-99 | appended to the buffer or to the current connection, never both |
| `VirtualConnection.VirtualConn.Begin` | pkg/transport/virtual_conn.go:42-45 | buffering starts with an empty buffer |
| `VirtualConnection.VirtualConn.SetConn` | pkg/transport/virtual_conn.go:48-50 | only the connection changes |
| `VirtualConnection.VirtualConn.End` | pkg/transport/virtual_conn.go:53-57 | buffering stops and the buffer is taken out |
| `VirtualConnection.VirtualConn.Replay` | pkg/transport/virtual_conn.go:59-63 | the buffered writes in order, up to the first that fails |
| `VirtualConnection.VirtualConn.SwapConnectionSeamless` | pkg/transport/virtual_conn.go:40-66 | uninterrupted, a swap writes nothing and leaves the buffer empty |

## Left out

- Engine.ArqEngine.Send: one evaluation of the window wait and the rest of the locked region. The sleep, the pacer wait and the socket write that follow it are not part of the method; the pacer has its own runs, and a failed socket write is the `TransportError` outcome of `Stream.MtpConn.Write`.
- Engine.ArqEngine.HandlePacket: `recovered` packets are returned instead of being handled on goroutines of their own; `FecFeedback` runs those goroutines in every order. The totals of received packets and bytes are left out.
- Engine.ArqEngine.HandleAck: does not call `GetAdjusted`; the forward-error-correction settings change only through the two `Reconfigure` methods, and the hand-over of a new setting through a channel is not modelled.
- Engine.ArqEngine.Close: the closing of channels and goroutines is represented by the `closed` flag alone. Runs have no step that closes an engine; a writer may find its engine closed (`Closed` in `StreamRuns`).
- ArqSender.HandleAckEffects: bandwidth and loss estimates are real numbers here and doubles in the code; no result depends on their values, and the window target they yield is an arbitrary integer to the window arithmetic.
- Pacing.EngineWindowBounded: tokens are real numbers, without the rounding of doubles.
- Fec.FecDecoder.Emit: a rebuilt shard of fewer than two bytes makes the code panic; the model emits nothing for it.
- FecEncoding.EarlyFlushMisrebuilds: says that the rebuilt shard is a wrong one. Whether wrong bytes are emitted for it depends on the length field the code happens to yield; one case in which they are is `FecEncoding.PartialFlushCorrupts`.
- FecSoundness.DecoderIsSound: the encoder starts with an empty block at any number and is not flushed or reconfigured afterwards.
- PacketCodecs.PacketCodec.Encode: a failure to set up the compressor is left out.
- Routing.SuccessMeansRouted: counts from the step a SYN-ACK reports, which bound the connection or found it open, because counting from the write would be wrong (`AgreementRuns.SentAfterClose`). SYN-ACKs shorter than 11 bytes are never decoded.
- Sequence numbers wrap in the model, but the runs use fewer than 2^32 packets, because comparisons in the code are plain `<` and `>`.
- Time within one locked region is a single clock reading. Deadlines, keepalive, PING and FIN handling and batching in the receive loop are left out; the loss of datagrams in the receive channel is loss in the network.
- The connection's dispatcher has no case for parity packets (pkg/mtp/conn.go:214-256), so the forward error correction here starts at the engine's `HandlePacket`.
- Concurrent writers on one connection, which the code does not order.
- Rotation of connection ids: every statement is about one pair of ids, equal on both sides.
- Cipher, key derivation, zstd and Reed-Solomon internals, and pooled buffers.
- `Compress` and `Decompress` without header, which the codec does not use.
- A full Accept channel, which amounts to a connection that closes at once, and closing the listener.
- Plain `SwapConnection`, transport rotation, multiplexing, client, TUN, proxies, routing rules, configuration and command line.
