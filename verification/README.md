# A verified model of the net666 stream

net666 is a user-space TCP-like stream. This project models one direction of it: the client inside
`send`, the sender with its cumulative-ack window and packed record log, a network that loses, duplicates
and reorders, the receiver with its fixed window, and the client inside `recv`; with them the handshake
that puts both windows in place, the numeric controllers and the packet checksum. It proves what the
protocol guarantees over whole runs, exactly where 32-bit sequence numbers defeat it, and that the
in-place data structures do what the protocol needs of them. `dafny verify dfyconfig.toml` checks it all.

## How it is built

- `SequenceWindows`: unreduced window positions against 32-bit wire numbers.
- `SendLog`, `SendWindowing`, `OutputSide`: the sender. Values and functions say what it does to a plain
  queue of segments; the classes do it in place over `off_map` and the packed records.
- `ReceiveWindowing`: the receiver, again as functions on values and as a class over its buffer.
- `NagleSplitter`, `CongestionControl`, `FastRetransmit`, `RetransmitTimeout`: splitter and controllers.
- `Protocol`: the state machine. One event is one region of the source under its lock. Whatever was
  transmitted stays deliverable for ever, in any order and any number of times, or is never delivered.
- `ProtocolInvariant`: the invariant and its preservation by each of the fifteen events.
- `ProtocolEvents`: what each event does in a reachable state, told by positions of the stream.
- `ProtocolSafety`: what every reachable state satisfies. `ProtocolProgress`: what can happen next.
  `ProtocolWrap`, `ProtocolCall`: when `send` can still return once positions pass 2^32, and what decides it at
  the call.
- `Handshake`, `Connection`: establishment, and the step from it to the data protocol. `Checksum`: packet integrity.

`Reachable` means reached from any initial state by any legal run. `Short` says that fewer than
2^32 - 1000 bytes have been given to `send`; without it a sequence number would repeat. Nothing is assumed
of the initial sequence number, so runs across 2^32 are included.

## What the proofs found

- The receiver compares a wire number with an unreduced position (src/tcp_proto_input.h:75). Once its begin
  has reached 2^32 it never stores another byte (`WedgedForever`). While all positions lie at or below 2^32 no
  reachable state is stuck (`NoDeadlock`). With all bytes queued, `send` can return if and only if the last
  segment is stored or begins below 2^32, and is acknowledged or does not end on the right edge of a send window
  past 2^32 (`ReturnsIff`). Before that, it cannot once the next cut would begin at or past 2^32
  (`UncutNeverReturns`). Nor can it if the bytes end past 2^32 and their last window, at a multiple of 1000 from
  the initial number, would start at or past 2^32, or they reach an MTU or more past it (`NeverReturnsPastWrap`;
  `WrapExample`: 1100 bytes, MTU 1444). `RoundAdvancesIff` is the condition for one round.
- At the call itself the answer is exact whenever the last turn fits an MTU, as it always does over Ethernet and
  loopback (`WideMtu`): `send` can return if and only if its bytes end at or below 2^32, or they and their last
  window both start below 2^32 (`CallReturnsIff`). One more condition holds for a first `send` of less than a
  window that has heard nothing: its first two cuts are 100 bytes each, and both must leave the last one below
  2^32. A second copy of the listener's SYN-ACK counts as heard, since the sender takes it for an acknowledgement
  that opens the window (src/newimpl.cpp:280-282): 500 bytes from the initial number 2^32 - 1 can be sent if and
  only if there is one (`GreetingDecides`).
- The wrap test of `contains` is strict (src/tcp_proto_internal.h:84): segments wholly past 2^32 that end on
  the right edge of the window are refused, and nothing else that fits is (`ContainsExact`).
- A duplicate acknowledgement is not recognised at position 0, because the number plus one is then 2^32
  (`DuplicateLands`).
- A segment of one byte on the right edge of a window past 2^32 counts as complete as soon as it is sent, so that
  its time-out never frees it (`RetryEffect`).
- 300000 bytes of send buffer suffice for record headers of up to 294 bytes and no more
  (`BufferSufficesIff`).
- A nonce must be one that no stale message can answer in full: `AgreesIffSafe` gives the exact condition, and
  a stale acknowledgement that violates it establishes the receiver alone (`StaleAckEstablishesAlone`).

## Modelling decisions

- The duplicate-acknowledgement branch looks up the oldest outstanding record without checking that there is
  one (src/tcp_proto_output.h:123-127); the model takes the branch only when there is one.
- Record handles: `get_msg_inplace` returns the message inside a record while `is_msg_used`, `mark_msg_used`
  and `get_msg_data_sz` take a record start (src/newimpl.cpp:468-518). The model uses the record start
  throughout, as the unit test's controller does (src/tcp_test_boost.cpp:894-985). Putting a record clears
  its `used` mark, as there.
- The wait for a full window to be flushed is an event guarded by its intended condition, and so are the
  waits for an empty send buffer and for futures.
- A transmission copies the segment atomically. A retry can come at any time and carry the number of any record
  of the current window.
- The worker keeps the address of a record across its wait and reads the sequence number again afterwards
  (src/newimpl.cpp:535-540). After the window has rolled and the memory is in use again the address is that of a record
  of the new window, which the retry event covers, or lies inside one, where the number it reads is arbitrary; that
  last case is not modelled.
- The loops of `send` and `recv_proc` block in the middle, so they are steps of the state machine; the
  splitter's loop is also given as a method of its own, with the windows it reads as a parameter.
- Safety is proved over runs in which the splitter may be interrupted at every turn. The source holds the
  sender's lock there except while it waits, so everything about what can happen is proved over runs that keep
  the lock: no transmission, retry or acknowledgement while the client is in the splitter (`KeepsLock`).
- The listener's SYN-ACK may reach the data protocol again, as an acknowledgement. Messages of earlier connections
  may reach the handshake but not the data protocol: a stale acknowledgement or segment would be taken there, and
  runs with one are not modelled.
- Retry timing, clocks, nonces and the choice of what the network delivers are parameters of events.

## Model

| member | source | states |
|---|---|---|
| SequenceWindows.ContainsSound | src/tcp_proto_internal.h:78-96 | whatever `contains` accepts fits the window modulo 2^32, for any window and any non-empty segment |
| SequenceWindows.ContainsExact | src/tcp_proto_internal.h:78-96 | of the segments that fit it accepts all, except those wholly past 2^32 that end on the right edge; exact for windows ending at or below 2^32 |
| SequenceWindows.ContainsAtBegin | src/tcp_proto_internal.h:84-88 | a fitting segment at the window's begin is accepted wherever the window lies |
| SequenceWindows.InMsgOffIsLift | src/tcp_proto_internal.h:131-139 | the offset computed from a wire number is the distance to the first position at or after begin with that number |
| SequenceWindows.BeforeBeginIsAckNo | src/tcp_proto_internal.h:52-57 | an acknowledgement carries begin minus one modulo 2^32, also at begin 0 |
| SequenceWindows.AckLands | src/tcp_proto_output.h:31-33 | an acknowledgement is taken exactly when its position is in the window, wrap edge apart, and moves the window there |
| SequenceWindows.DuplicateLands | src/tcp_proto_output.h:34-36 | the duplicate branch is taken exactly for the position of begin, except at 0 and at the wrap edge |
| SendLog.ReleasedSlice | src/tcp_proto_output.h:195-206 | cut at boundaries, a release covers exactly the segments between them, once each and in order |
| SendLog.BufferSufficesIff | src/newimpl.cpp:447-454 | every way to cut a window into non-empty segments fits the send buffer if and only if headers take at most 294 bytes |
| SendLog.RecordSizeAligned | src/newimpl.cpp:447-454 | a record takes the next multiple of eight above its header and data |
| SendLog.WrittenSpaced | src/newimpl.cpp:457-466 | a record that is put overwrites whatever it overlaps, so that records stay apart |
| SendLog.SendOutputBuffer.constructor | src/tcp_proto_mem.h:100-109 | a fresh buffer is an empty queue |
| SendLog.SendOutputBuffer.Refresh | src/tcp_proto_output.h:175-180 | starting over leaves an empty queue, a valid map and the notifications made |
| SendLog.SendOutputBuffer.GetMsgAt | src/tcp_proto_output.h:181-185 | at the offset of segment i the map leads to the record that holds segment i |
| SendLog.SendOutputBuffer.PutMsgAt | src/tcp_proto_output.h:186-194 | a put appends to the queue, stays within the buffer and overwrites no live record |
| SendLog.SendOutputBuffer.ReleaseInplace | src/newimpl.cpp:487-492 | a release notifies the record's future and yields its size |
| SendLog.SendOutputBuffer.ReleaseRange | src/tcp_proto_output.h:195-206 | the walk over records ends and notifies exactly the futures of segments i..j in order |
| SendLog.SendOutputBuffer.MarkUsed | src/newimpl.cpp:504-510 | marking through a handle changes that segment's mark and nothing else |
| SendWindowing.RetryFinds | src/tcp_proto_output.h:84-93 | the wire number of an outstanding segment leads back to exactly that segment |
| SendWindowing.PicksInOrder | src/tcp_proto_output.h:131-152 | between retries every segment is picked at most once, in order, and none is passed over |
| SendWindowing.AcknowledgeKeepsOk | src/tcp_proto_output.h:102-122 | an acknowledgement at a boundary keeps window and queue consistent and notifies exactly the newly covered segments |
| SendWindowing.SendCumulativeWindow.Send | src/tcp_proto_output.h:62-82 | a segment is dropped exactly when it does not fit, otherwise queued under the next number |
| SendWindowing.SendCumulativeWindow.Retry | src/tcp_proto_output.h:84-93 | exactly the named segment becomes available again |
| SendWindowing.SendCumulativeWindow.OnAck | src/tcp_proto_output.h:102-129 | the in-place window does what acknowledging does to the queue, including the roll to the next window |
| SendWindowing.SendCumulativeWindow.FindUnused | src/tcp_proto_output.h:137-150 | the walk finds the oldest waiting segment, or there is none |
| SendWindowing.SendCumulativeWindow.NextMsg | src/tcp_proto_output.h:131-152 | the oldest waiting segment is marked and returned; the time-out means that all are used |
| OutputSide.OutputProcessing.OnRetry | src/newimpl.cpp:621-627 | a retry halves the congestion window and frees exactly the named segment |
| OutputSide.OutputProcessing.OnDuplicate | src/newimpl.cpp:612-619 | a duplicate is counted, and when it fires the oldest outstanding segment is freed |
| OutputSide.OutputProcessing.OnAck | src/newimpl.cpp:666-676 | congestion control, window, log and duplicate counter together do what the protocol's acknowledgement event does |
| ReceiveWindowing.StoreAppends | src/tcp_proto_input.h:44-48 | an accepted segment is appended to the bytes waiting for the client and stays in the window |
| ReceiveWindowing.FlushMoves | src/tcp_proto_input.h:105-111 | a flush moves bytes to the client in order and without loss, as many as asked for or all |
| ReceiveWindowing.RollOverKeepsBegin | src/tcp_proto_input.h:33-38 | rolling over keeps the expected position, forgets no byte and advertises a full window |
| ReceiveWindowing.AckDescribesWindow | src/tcp_proto_input.h:83 | number and window of an acknowledgement name the receiver's position and the end of its window |
| ReceiveWindowing.AcceptsInOrderIff | src/tcp_proto_input.h:74-76 | a fitting segment at the expected position is accepted if and only if that position is below 2^32 |
| ReceiveWindowing.ReceiverWindowProcessing.PutData | src/tcp_proto_input.h:131-135 | exactly the addressed bytes of the buffer are overwritten |
| ReceiveWindowing.ReceiverWindowProcessing.OnMessage | src/tcp_proto_input.h:66-84 | the in-place receiver stores or refuses as the protocol's event does, and acknowledges unless it must wait |
| ReceiveWindowing.ReceiverWindowProcessing.OnBufferFlushed | src/tcp_proto_input.h:57-61 | after the flush the next window starts and is acknowledged |
| ReceiveWindowing.ReceiverWindowProcessing.ClientFlushRequest | src/tcp_proto_input.h:94-120 | the client gets the oldest waiting bytes, as many as it asked for or all there are, and the rest stays |
| NagleSplitter.TakeBounds | src/tcp_proto_output.h:216-229 | a turn takes the least of MTU, window and data, and does so at once exactly when more than an MTU of window and an MTU of data are there |
| NagleSplitter.Split | src/tcp_proto_output.h:213-241 | the loop ends; its segments are non-empty, spell the data, and all but the last take the MTU or the window read at their turn |
| CongestionControl.WindowsConverge | src/tcp_proto_output.h:283-299 | windows that began d apart are at most d/2^k apart, rounded up, after k retries, and stay at least one |
| CongestionControl.RetriesDivide | src/tcp_proto_output.h:283-289 | k retries in a row divide the window by 2^k down to one |
| CongestionControl.AcksAdd | src/tcp_proto_output.h:291-299 | n acknowledgements in a row add n MTUs and take over the last advertised window |
| FastRetransmit.FastRetransmitter.OnAck | src/tcp_proto_output.h:409-429 | the counter in place follows the counting function and reports when it fires |
| FastRetransmit.RetransmitsPerRun | src/tcp_proto_output.h:409-429 | the retransmissions over any duplicates are the sum of run length / 4 over maximal runs |
| RetransmitTimeout.BlendExact | src/tcp_proto_output.h:326-330 | the floating-point averages truncate to (7s+r)/8 and (3v+d)/4 |
| RetransmitTimeout.TimeoutComputing.ComputeTimeout | src/tcp_proto_output.h:320-343 | SRTT moves by an eighth and RTTVAR by a quarter, rounded down; the first sample sets both, as in section 2 of RFC 6298 |
| RetransmitTimeout.SamplesBound | src/tcp_proto_output.h:320-334 | samples in [lo, hi] keep SRTT in [lo, hi] and the time-out in its band |
| RetransmitTimeout.TimeoutIs | src/tcp_proto_output.h:332-354 | 3000 before any sample, then SRTT plus the larger of 300 and four RTTVAR |
| RetransmitTimeout.ErrorDecays | src/tcp_proto_output.h:326-330 | under n equal samples the signed error d of SRTT ends between (7/8)^n (d + 7) - 7 and (7/8)^n d |
| RetransmitTimeout.TimeoutConverges | src/tcp_proto_output.h:326-334 | equal samples R bring the time-out into [R+293, R+300] within a stated number of samples, for good |
| ProtocolInvariant.StepInv | src/newimpl.cpp:630-676 | every event of client, worker, network and receiver keeps the invariant |
| ProtocolInvariant.DeliverAckInv | src/tcp_proto_output.h:102-129 | any acknowledgement ever sent, delivered at any time, keeps it |
| ProtocolInvariant.DeliverSegmentInv | src/tcp_proto_input.h:66-84 | any segment ever sent, delivered at any time, keeps it |
| ProtocolInvariant.PutInv | src/tcp_proto_output.h:62-82 | queueing a segment keeps it |
| ProtocolInvariant.AcceptedIsNext | src/tcp_proto_input.h:74-76 | a segment whose number matches the receiver's position is the next segment of the stream |
| ProtocolInvariant.QueueIsSender | src/tcp_proto_output.h:167-206 | in every such state the in-place window's consistency condition holds |
| ProtocolEvents.FlushEffect | src/tcp_proto_input.h:94-120 | `recv` gets as many stored bytes as it asks for, or all, and nothing else changes |
| ProtocolEvents.SegmentEffect | src/tcp_proto_input.h:66-84 | a segment is stored exactly if it is the next one and begins below 2^32; number and window of the answer follow from the bytes stored alone |
| ProtocolEvents.RollEffect | src/tcp_proto_input.h:33-38 | the receiver rolls over exactly when its full window is handed over, and advertises 1000 bytes |
| ProtocolEvents.TransmitEffect | src/tcp_proto_output.h:131-152 | exactly the oldest waiting segment goes out, with its number and the bytes given, and is marked |
| ProtocolEvents.RetryEffect | src/newimpl.cpp:621-627 | a time-out of an outstanding segment frees it and halves the congestion window, down to one; of a released one, or of the last byte of a window past 2^32, it does nothing |
| ProtocolEvents.AckEffect | src/tcp_proto_output.h:102-129 | the whole state after an acknowledgement, by the position it names: taken, window used up, or only the windows opened |
| ProtocolEvents.DuplicateEffect | src/tcp_proto_output.h:123-127 | a duplicate is counted and opens the windows; the fourth frees the oldest segment and halves the congestion window, no other does |
| ProtocolEvents.DuplicatesRetransmit | src/tcp_proto_output.h:409-429 | n duplicates in a row from a clear counter halve the congestion window n/4 times and free the oldest segment if and only if n >= 4 |
| ProtocolEvents.CallEffect | src/newimpl.cpp:630-662 | `send` takes up all its bytes and can return exactly when all given are queued; then all are stored |
| ProtocolEvents.TurnEffect | src/newimpl.cpp:640-647 | a turn takes what is left to queue, or fills the window up to a multiple of 1000 bytes |
| ProtocolEvents.CutEffect | src/tcp_proto_output.h:213-241 | which cut is made, and the length of it, by MTU, both windows and data |
| ProtocolEvents.PutEffect | src/tcp_proto_output.h:62-82 | a small segment is queued exactly once everything is acknowledged, under the number of its position |
| ProtocolEvents.WaitEffect | src/newimpl.cpp:650-658 | futures are waited for one by one as they are notified, and the turn ends after the last |
| ProtocolSafety.PrefixDelivery | src/newimpl.cpp:341-350 | what `recv` handed over, and what is stored for it, is a prefix of what `send` was given |
| ProtocolSafety.ReturnedMeansStored | src/newimpl.cpp:640-662 | when `send` has returned, all its bytes are stored at the receiver |
| ProtocolSafety.SegmentsSpellGiven | src/newimpl.cpp:405-410 | queued and unqueued bytes are exactly the bytes given, and every segment on the wire is a cut of them |
| ProtocolSafety.WindowOrder | src/tcp_proto_internal.h:44-50 | start <= sender begin <= receiver begin <= end of sent data <= window end < 2^33; the receiver is at a segment boundary |
| ProtocolSafety.AckNeverOvertakes | src/tcp_proto_output.h:102-122 | no acknowledgement, old or repeated, moves the sender past what is stored, nor back |
| ProtocolSafety.AckFallsOnBoundary | src/tcp_proto_output.h:104-113 | an acknowledgement that is taken falls on a segment boundary, as the record log requires |
| ProtocolSafety.RetryHitsNamedRecord | src/newimpl.cpp:621-627 | a retry frees the record whose number it carries if that is still outstanding, otherwise nothing |
| ProtocolSafety.FastRetransmitHitsOldest | src/tcp_proto_output.h:123-127 | a fast retransmission frees exactly the oldest outstanding segment |
| ProtocolSafety.FuturesOnceAndStored | src/newimpl.cpp:560-564 | futures are notified once each, in order, and only for segments stored in full |
| ProtocolSafety.NoReuseBeforeWait | src/newimpl.cpp:650-654 | a record's memory is reused only after its future has been waited for |
| ProtocolSafety.NagleAndSizes | src/tcp_proto_output.h:213-241 | no drop and never a closed window; segments non-empty and at most an MTU; all outstanding ones but the oldest exactly an MTU |
| ProtocolSafety.TurnFillsWindow | src/newimpl.cpp:640-647 | a turn of the outer loop takes everything left or exactly fills the send window |
| ProtocolSafety.ReceiverTracksSender | src/tcp_proto_input.h:44-84 | windows roll in lockstep, the buffer holds the undelivered stream, the next segment fits, every ack advertises 1 to 1000 |
| ProtocolProgress.RoundAdvancesIff | src/tcp_proto_input.h:66-84 | delivering the oldest segment and its acknowledgement advances the sender if and only if a condition on the state before holds |
| ProtocolProgress.OldestOnWire | src/tcp_proto_output.h:131-152 | the oldest outstanding segment is on the wire or is transmitted next |
| ProtocolProgress.Drain | src/tcp_proto_output.h:102-122 | where segments can be stored and acknowledged, everything outstanding can be, by a run that keeps the lock |
| ProtocolProgress.NoDeadlock | src/newimpl.cpp:640-662 | from every reachable state with positions up to 2^32 a run that keeps the lock lets `send` return with every byte delivered |
| ProtocolWrap.WedgedForever | src/tcp_proto_input.h:75 | a receiver whose begin has reached 2^32 stores nothing more in any run |
| ProtocolWrap.ReturnsIff | src/newimpl.cpp:640-662 | with all bytes queued, `send` can return if and only if the last segment can be stored and acknowledged, a condition on positions |
| ProtocolWrap.DoomedForever | src/newimpl.cpp:640-662 | a state whose next or last segment cannot be stored or acknowledged stays so in every run |
| ProtocolWrap.UncutNeverReturns | src/newimpl.cpp:640-662 | no `send` returns once its next cut would begin at or past 2^32 |
| ProtocolWrap.NeverReturnsPastWrap | src/newimpl.cpp:640-662 | no `send` returns whose bytes end past 2^32 with their last window at or past 2^32, or an MTU or more past it, however cut |
| ProtocolWrap.ReachableFacts | src/tcp_proto_output.h:102-122 | in every run windows start at multiples of 1000 from the initial number and never past 2^32, and the network holds the acknowledgement that describes the receiver |
| ProtocolWrap.WrapExample | src/proto.h:73-75 | 1100 bytes at an MTU of 1444 from the initial number 2^32 - 1 never return, whatever the network holds |
| ProtocolCall.CallReturnsIff | src/newimpl.cpp:640-662 | with a last turn of at most an MTU, a call can return by a run that keeps the lock if and only if a condition on the positions at the call holds |
| ProtocolCall.Finish | src/newimpl.cpp:640-662 | a client on track for a last cut below 2^32 returns, by a run that keeps the lock, with every byte delivered |
| ProtocolCall.HearOwnAck | src/newimpl.cpp:666-676 | the receiver's latest acknowledgement, heard again with nothing outstanding, only opens the windows the splitter reads |
| ProtocolCall.FirstSendPastWrap | src/tcp_proto_output.h:213-241 | a first `send` that can hear no SYN-ACK, whose forced first cut reaches 2^32 and leaves bytes over, never returns |
| ProtocolCall.EarlyCutsStuck | src/tcp_proto_output.h:213-241 | nor does one, with the lock kept, whose forced second cut does |
| ProtocolCall.GreetingDecides | src/newimpl.cpp:280-282 | 500 bytes at an MTU of 1444 from the initial number 2^32 - 1 can be sent if and only if a copy of the SYN-ACK is left |
| Handshake.OwnExchangeOnly | src/tcp_proto_handshaker.h:46-62 | each side takes exactly the answer to what it sent itself, and the exchange ends at the listener's nonce plus one |
| Handshake.AnswerEstablishes | src/tcp_proto_handshaker.h:46-62 | a message establishes its side exactly if it answers in full what that side sent; any other changes nothing |
| Handshake.AgreementFromStart | src/newimpl.cpp:740-813 | with safe nonces and any stale messages, receiver established implies sender established, both at the receiver's nonce + 1 |
| Handshake.AgreesIffSafe | src/tcp_proto_handshaker.h:39-68 | the choice of a nonce is safe if and only if every continuation with safe nonces agrees |
| Handshake.Perform | src/newimpl.cpp:740-813 | a round of the message loops, carried out by the two handshakers in place, is the event of the exchange |
| Handshake.ThreeWayCompletes | src/newimpl.cpp:740-813 | from any start some run establishes both sides |
| Handshake.StaleAckEstablishesAlone | src/tcp_proto_handshaker.h:46-53 | a stale acknowledgement of both numbers establishes the receiver alone |
| Connection.EstablishedIsInitial | src/newimpl.cpp:795-805 | windows started at each side's own number of an agreed handshake make an initial state of the data protocol, with the listener's SYN-ACK still deliverable |
| Connection.Open | src/tcp_proto_output.h:52-57 | fresh sockets, windows of 1000 and 100 bytes, moved to two starts are an initial state exactly when the starts agree |
| Checksum.SumWords | src/tcp_engine.cpp:320-326 | the loop adds up all 16-bit words, a trailing byte included |
| Checksum.TotalIsBytes | src/tcp_engine.cpp:320-326 | bytes at even positions count once and at odd ones 256 times, a trailing one included |
| Checksum.Chsum | src/tcp_engine.cpp:319-331 | the two-step fold is the RFC 1071 checksum for word sums below 2^32 |
| Checksum.SealedPasses | src/newimpl.cpp:145-160 | sealing changes only bytes 16 and 17, puts the RFC 1071 checksum of the rest there, and the packet passes the corruption test |
| Checksum.SingleWordDetectedIff | src/newimpl.cpp:70-78 | changing one covered word is noticed, except exactly 0x0000 to or from 0xFFFF beside a non-zero word |
| Checksum.ChecksumChangeDetected | src/newimpl.cpp:70-78 | changing the checksum itself is always noticed |

## Left out

- Raw sockets, message queues, MTU lookup, addresses and the shared-memory life cycle: I/O and calls into the operating system.
- Counting-semaphore interleavings, worker start and join, destructors: waits are modelled by their guards.
- The byte layout of a record: the buffer is modelled as the records it holds, with their exact sizes.
- Full duplex: both directions share one state cell (src/tcp_internal.h:134-135), and only one direction is modelled.
- The close handshake (src/tcp_proto_handshaker.h:71-141): the data path does not depend on it.
- `output_control_flow_persist_timer`: never wired into the socket.
- Sample collection for the time-out (src/tcp_proto_output.h:355-371): the sample is a parameter.
- 64-bit overflow: positions stay below 2^33 (`WindowOrder`); the congestion window is unbounded in the model.
- SendWindowing.SendCumulativeWindow.Send: empty segments are excluded; the splitter never queues one (`NagleAndSizes`).
- SendWindowing.SendCumulativeWindow.OnAck: an acknowledgement in the window must fall on a segment boundary, since `off_map` holds nothing elsewhere; every reachable state meets this (`AckFallsOnBoundary`).
- BlendExact: the averages are computed over the reals, which doubles match for values below 2^50.
- SendWindowing.SendCumulativeWindow.Retry: the number must be that of an outstanding record; elsewhere the source looks up an offset that holds nothing (`RetryHitsNamedRecord`).
- OutputSide.OutputProcessing.OnRetry: as for `Retry`.
- OutputSide.OutputProcessing.OnAck: as for `SendCumulativeWindow.OnAck`.
- CallReturnsIff: a last turn longer than an MTU can be cut in several ways, by choosing which old acknowledgement, and so which advertised window, is heard before each cut; whether one of them leaves the last cut below 2^32 is not decided at the call. `NeverReturnsPastWrap`, `UncutNeverReturns` and `NoDeadlock` hold there, and `ReturnsIff` is exact once the bytes are queued.
