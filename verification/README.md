# A verified model of the ToU stream engine

ToU is a user-space TCP Reno over UDP. This project models its reliable-stream engine after the handshake,
for one connection and one direction of data, and proves what the engine promises its applications.

The core is modelled twice. Value-level functions say what each operation of a socket computes, and all
properties of protocol, congestion control and reassembly are lemmas about them. Classes with the original's
fields, loops and branches do the same work in place, and every method's contract equates the new state and
the transmitted packets with the function of that operation, so the lemmas hold of the loops.

| file | content |
|---|---|
| `TouTypes.dfy` | constants, packets, the C-string copy of a payload |
| `CircBuf.dfy` | the circular buffer class, as a bounded FIFO |
| `Congestion.dfy`, `WindowLaws.dfy`, `Ssca.dfy` | the `ssca` window arithmetic as functions, the laws of its histories, and the class that updates the control block |
| `History.dfy` | the accepted stream, its segment boundaries and every transmission: what the proofs remember |
| `Sender.dfy`, `SenderProofs.dfy`, `AckProofs.dfy`, `AckLaws.dfy` | sending under the window, acks, timers, fast retransmit, the sender invariant, and the round-trip estimate |
| `DelayedAck.dfy` | the delayed-ack state machine shared with the timer thread |
| `Receiver.dfy`, `ReceiverProofs.dfy`, `ReceiverSteps.dfy`, `Reassembly.dfy` | out-of-order heap, resumable recovery, whole-stream properties |
| `Endpoint.dfy` | one socket: classification, a whole `run`, application calls, timer scans |
| `Network.dfy`, `NetworkProofs.dfy`, `EndToEnd.dfy` | two sockets and a network that loses, reorders and duplicates; the two-party invariant; the theorems |
| `Deliverable.dfy`, `Progress.dfy`, `Stalls.dfy` | from which states everything can still be delivered, and what is never repaired |
| `RunLaws.dfy`, `RunHistory.dfy` | when a run reads on and where it stops; whole runs as histories |
| `WindowHistory.dfy` | the sender's window in every history of the connection |
| `Histories.dfy`, `FlowControl.dfy`, `Stranding.dfy` | facts of every history, and histories in which the code fails |
| `TimerObjects.dfy`, `ProcessTou.dfy` | timer heap, ack deque, socket table entry and `processTou` as objects |
| `Header.dfy` | the 16-byte header, byte for byte |

## Hypotheses

- One connection; data flows from one application to the other. A transition is one packet handled by a run,
  one application call or one timer scan; it is atomic and reads the clock once. `RunHistory` shows that a run
  over a whole inbox is a sequence of these transitions.
- Sequence numbers and times are unbounded naturals and integers, as the code compares them with plain `<`;
  the advertised window is a natural number. `cal_rto` uses alpha = 1/8 and beta = 2 exactly.
- A run can happen in any state, as `touMain::run` lets an application call it at any time; the timer thread calls
  it only while some timer is pending.
- An `exit(1)`, a failed `assert` and a division by zero are an explicit abort.
- Applications send any bytes. Text means that none of them is NUL (`TextOnly`). A segment is cut short when its
  timer node holds it only up to a NUL, and a retransmission of such a node is mangled (`History.Mangled`).
- `std::priority_queue` is a sequence in key order. Both comparators use `>=`, so where a packet lands among
  packets with its own sequence number is a parameter (`k`) the theorems quantify over.

## What holds only under a condition

- Whatever bytes are sent and whatever the network does, the process ends in only two ways
  (`EndToEnd.AbortsExactlyWhen`): the assertion in `do_proc_pkt_rec` fails exactly when recovery reaches a packet
  that starts before the end of what it has just taken (`ReceiverProofs.RecoverAssertsIff`), and a fast retransmit
  exits exactly when the front timer node was cut short at a NUL (`AckProofs.FastRexmitInv`).
- Such an overlapping packet is a second copy of the segment or what a NUL left of a retransmission of it
  (`ReceiverProofs.OverlapMeaning`). So without duplicated data and without a timeout that re-sends a segment cut
  short, a history aborts if and only if it asks for a fast retransmit of one (`EndToEnd.AbortsIff`); histories of
  text never do (`EndToEnd.NeverAborts`).
- Both hypotheses are needed. `Histories.DuplicationCanAbort` and `Histories.NulCanAbort` are histories from the
  handshake that end in the failed assertion: the second is one write of two bytes and an early timeout, with
  nothing lost and nothing duplicated. `node_t` copies its payload through a C string, and `sendpkt` computes the
  sequence number from the length of the copy.
- The MATCH state moves `rcv_nxt` before it inserts and ignores the result of the insert. The stream delivered is
  exact, for any bytes and over any network, if and only if no segment ever arrives in sequence without room for it
  (`EndToEnd.DeliveryIsExactIff`); what is lost that way is lost for good (`Histories.OverflowIsNeverRepaired`).
  Nothing prevents it: over a perfect network the sender overruns a receiver that does not read
  (`FlowControl.NothingStopsTheSender`). Only the first packet of a run can be lost
  (`EndpointModel.OnlyFirstCanBeLost`).
- Everything accepted can still be delivered and acknowledged, by some continuation, if and only if four things hold
  (`Stalls.FullDeliveryPossibleIff`, for every history, network and bytes): the advertised window is at least
  MIN_SEND_SIZE, or nothing was accepted; nothing was lost to a full buffer; every packet in the out-of-order heap is
  a segment, stored once; and every segment with a NUL that the receiver still lacks is in flight or in the heap.
  The last is where binary data stalls: the timer node of such a segment re-sends only the bytes before the NUL, at
  the wrong sequence number, so once the network has lost the segment itself, rcv_nxt never passes its start
  (`Stalls.LostNulIsNeverRepaired`). `Histories.LostNulStalls` is one write of two bytes and one loss. A mangled or
  doubled packet in the heap is never taken out again (`Stalls.StuckPacketStays`).
- Bytes can wait in `cb_send` with nothing in flight if and only if the advertised window is at most one segment
  (`Stranding.StrandsIff`): in congestion avoidance `cal_num_caxmit` then allows no pass. From MIN_SEND_SIZE on,
  repeated acks lead out of it again (`Progress.Nudge`).
- The two ack-cleaning loops agree if and only if no two nodes end at the acknowledged number
  (`AckProofs.CleaningsAgreeIff`).
- `setdwnd` keeps "fast retransmit iff three duplicates" if and only if it is not handed, during recovery, an ack
  other than `snd_una` (`Congestion.FrIffThreeKeptIff`); `run` never does that.

An ack older than `snd_una` opens the window like a new one (`AckLaws.AckChangesWindow`), and the window then follows
its acks and timeouts in every history (`WindowHistory.WindowFollowsEvents`).

Where comments and code differ the model follows the code: `addwnd` is documented for new acks but is also called
for acks older than `snd_una`; `insert` is documented to return what could be inserted, but its two-argument form
stores all or nothing and never fills the last cell; `ck_num_dupack` is documented for three or more duplicates but
is true at exactly three; the flags and words of the header are read back, its data offset and reserved bits are
not. Two more behaviours a caller may not expect: old data is dropped without an ack, and `touRecv` on a socket in
CLOSE_WAIT removes bytes and returns none.

## Model

| member | source | states |
|---|---|---|
| EndToEnd.AbortsExactlyWhen | src/lib/processtou.cpp:82-282 | over any network and for any bytes, a history aborts if and only if some packet moves rcv_nxt past the start of a stored one, or some ack asks for a fast retransmit of a segment cut short at a NUL |
| EndToEnd.AbortsIff | src/lib/processtou.cpp:589-628 | without duplicated data and without a timeout that re-sends a segment cut short, a history of any bytes aborts if and only if it asks for a fast retransmit of one, whatever is lost or reordered |
| EndToEnd.NeverAborts | src/lib/processtou.cpp:589-628 | from the handshake on, no history of text without duplicated data reaches an assertion, an exit or a division by zero, whatever is lost or reordered |
| EndToEnd.DeliveryIsExactIff | src/lib/processtou.cpp:203-213 | over any network and for any bytes, in every history that does not abort, the bytes touRecv returned followed by cb_recv are the accepted bytes up to rcv_nxt if and only if no in-sequence segment ever met a full buffer |
| EndToEnd.StepInv | src/lib/processtou.cpp:82-282 | each transition keeps the two-party invariant and moves snd_una, snd_nxt, rcv_nxt only forward; it aborts exactly on an overlapping packet or a fast retransmit of a segment cut short |
| EndToEnd.ExecKeeps | src/lib/processtou.cpp:82-282 | every history that does not abort keeps the invariant and moves all numbers forward |
| EndToEnd.NoCopiesStep | src/lib/timer.cpp:380-418 | without duplication or mangling every packet is in flight or in the heap at most as often as it was sent, so a retransmitted copy never enters the heap |
| EndToEnd.GainStep | src/lib/processtou.cpp:203-213 | the bytes missing from the delivered stream grow by exactly the segments that overflow and never shrink |
| EndToEnd.AcknowledgedIsReceived | src/lib/processtou.cpp:58-75 | acknowledged bytes are a prefix of the received ones, and a sender with nothing queued or in flight has had everything received |
| FlowControl.NothingStopsTheSender | src/lib/processtou.cpp:209-210 | from every handshake with an advertised window above one segment, some history of text over a network that loses, reorders and duplicates nothing overruns the buffer of a receiver that does not read |
| Progress.NeverStranded | src/lib/processtou.cpp:437-490 | in every history, if the advertised window is above one segment, bytes wait in cb_send only while a segment is in flight |
| Stranding.StrandsIff | src/lib/processtou.cpp:39-50 | some history from the handshake, over a network that loses and duplicates nothing, leaves bytes queued with nothing in flight if and only if the advertised window is at most one segment |
| Stalls.FullDeliveryPossibleIff | src/lib/timer.cpp:207-244 | after every history, over any network and for any bytes, some continuation with a monotone clock delivers and acknowledges everything accepted if and only if the advertised window is at least MIN_SEND_SIZE or nothing was accepted, nothing overflowed, every stored packet is a segment stored once, and every segment with a NUL that the receiver lacks is in flight or stored |
| Stalls.LostNulIsNeverRepaired | src/lib/timer_node.cpp:18-20 | once a segment with a NUL is neither received nor in flight nor stored, no continuation moves rcv_nxt past its start, and something stays unacknowledged for ever |
| Stalls.StuckPacketStays | src/lib/processtou.cpp:593-594 | a mangled packet or a second copy in the out-of-order heap stays there in every continuation that does not abort, and something stays unacknowledged for ever |
| Progress.CanAdvance | src/lib/timer.cpp:380-418 | from every state that meets those conditions, with data in flight or queued, some continuation leads to a larger snd_una, whatever else has been lost |
| Progress.Nudge | src/lib/timer.cpp:333-349 | bytes queued with nothing in flight are transmitted after at most three repeated acks, when the advertised window is at least MIN_SEND_SIZE |
| Deliverable.GoodStep | src/lib/processtou.cpp:82-282 | the conditions for full delivery are kept by every step that delivers data only in sequence and into room and does not ask for a fast retransmit of a segment cut short |
| Histories.SequenceNumbersInOrder | src/lib/processtou.cpp:290-330 | in every history snd_una <= rcv_nxt <= snd_nxt, no ack in flight is beyond rcv_nxt, acks name segment boundaries, data packets carry the stream's bytes or are what a NUL left of a retransmission, and no stored packet is due while the next run starts by reading |
| Histories.TimersInEveryHistory | src/lib/timer.cpp:519-574 | in every history the timer nodes tile [snd_una, snd_nxt), accepted bytes = acknowledged + in flight + queue, the segment of every node was transmitted, a node has a send time iff that happened once, only the front node can lack one, and a node re-sends its segment iff that has no NUL |
| Histories.DuplicateOutOfOrderAborts | src/lib/processtou.cpp:593-594 | the next-but-one segment delivered twice before the next one fails the assertion, from every such state |
| Histories.DuplicationCanAbort | src/lib/processtou.cpp:593-594 | a concrete history from the handshake that ends in the failed assertion |
| Histories.MangledTimeoutAborts | src/lib/timer.cpp:276-292 | from every state in which a timeout fires on a segment cut short while the segment is still on its way, the retransmission arriving first fails the assertion |
| Histories.NulCanAbort | src/lib/timer_node.cpp:18-20 | a concrete history from the handshake, with nothing lost or duplicated, in which one NUL ends in the failed assertion |
| Histories.LostNulStalls | src/lib/timer.cpp:276-292 | a concrete history from the handshake, one write and one loss, after which no continuation delivers everything |
| Histories.OverflowIsNeverRepaired | src/lib/processtou.cpp:209-210 | after an overflow no continuation ever delivers the accepted stream again |
| RunHistory.RunIsHistory | src/lib/processtou.cpp:82-282 | a run over a whole inbox has the same outcome, state and acks as a history of single-packet transitions, and leaves the rest of the inbox unread |
| RunHistory.RunsNeverAbort | src/lib/processtou.cpp:82-282 | with nothing duplicated or mangled in flight no run over any inbox aborts, and the invariants hold again after it |
| RunHistory.AckRunIsStep | src/lib/processtou.cpp:142-180 | the sender's run handles one ack, is the single-packet transition, and exits exactly if the ack asks for a fast retransmit of a segment cut short |
| RunLaws.RunStopsOnlyWhen | src/lib/processtou.cpp:221-263 | a run leaves packets in the socket only after a SYN, a FIN or a pure ack, with a stalled recovery, or with less than 2000 bytes free in cb_recv, and what it leaves is the end of the inbox |
| RunLaws.DataIsReadToTheEnd | src/lib/processtou.cpp:221-263 | an inbox of data packets is read to the end and no recovery is left stalled, whenever cb_recv has room for it, for the out-of-order heap and for one more datagram |
| RunLaws.ReadsOnIff | src/lib/processtou.cpp:257-263 | after a packet the run reads another waiting one exactly if the packet was data, recovery has not stalled and 2000 bytes are free |
| RunLaws.RunEndsInState | src/lib/processtou.cpp:117-138 | a run ends in CLOSE_WAIT or SYN_RECEIVED exactly if its last packet was the FIN or SYN, otherwise in the state it started in; in CLOSE_WAIT touRecv returns no bytes |
| RunLaws.ExitsIff | src/lib/processtou.cpp:290-330 | the classification exits exactly on a packet that is neither SYN nor FIN and has no ACK flag, meets no established connection, or acknowledges what was never sent |
| RunLaws.WriteUsesWindow | src/lib/tou.cpp:249-256 | touSend queues all bytes if they leave a cell free and none otherwise, then transmits from the front of the queue all that the window allows |
| WindowHistory.WindowFollowsEvents | src/lib/processtou.cpp:142-180 | in every history, over any network, the sender's window is the run of its own acks and timeouts from the initial window, its duplicate count is the number of acks of snd_una in a row, and it is in recovery exactly after three |
| WindowHistory.RetransmitsOnThirdInARow | src/lib/processtou.cpp:153-166 | after every history an ack retransmits the segment at snd_una exactly if it is the third duplicate in a row, and all else it transmits is new |
| Histories.FirstFlight | src/lib/tou.cpp:86-145 | the first large write on a fresh connection transmits two full segments at once |
| Histories.FirstTimeoutAfterThreeSeconds | src/lib/timer.cpp:380-398 | the first write on a fresh connection is repeated by a scan exactly if more than three seconds have passed |
| NetworkProofs.InitInv | src/lib/tou.cpp:80-149 | the state touConnect and touAccept agree on satisfies the two-party invariant |
| NetworkProofs.AckClass | src/lib/processtou.cpp:295-329 | an ack in flight is always classified as an ack, so the exit(1) is unreachable, and it names a boundary not beyond rcv_nxt |
| NetworkProofs.RecvDataStep | src/lib/processtou.cpp:203-254 | a data packet's transition aborts iff it moves rcv_nxt past the start of a stored packet, and otherwise keeps the invariant and changes only the receiver |
| NetworkProofs.RecvEmptyStep | src/lib/processtou.cpp:301-306 | a retransmission of which nothing is left is taken for a duplicate ack by the receiver's idle sending half and changes nothing else |
| NetworkProofs.RecvDataAcks | src/lib/processtou.cpp:516-532 | a data packet draws at most one ack, which carries the rcv_nxt the step ends with |
| NetworkProofs.ResumeAcks | src/lib/processtou.cpp:185-196 | a resumed recovery sends one ack of the new rcv_nxt if it ends and none if it stalls again |
| NetworkProofs.TimerAcks | src/lib/timer.cpp:311-357 | a scan of the ack deque sends at most one ack, of the current rcv_nxt |
| EndpointModel.OnlyFirstCanBeLost | src/lib/processtou.cpp:203-263 | every packet read through PROCESS_CLEAR_GET_PKT is stored when it is next in line; only the first packet of a run can be dropped |
| Reassembly.OrderIndependent | src/lib/processtou.cpp:185-254 | every permutation of every segmentation ends with an empty heap, rcv_nxt at the end and the bytes in order |
| Reassembly.RecoveryIsResumable | src/lib/processtou.cpp:185-196 | a stalled recovery, interleaved with any reads and repeated, delivers what one run with room delivers and ends in the same heap and rcv_nxt |
| Reassembly.RecoverIsPrefix | src/lib/processtou.cpp:589-628 | one bounded recovery is a prefix of the unbounded one and leaves exactly the rest to do |
| Reassembly.MatchKeepsStreamIff | src/lib/processtou.cpp:203-213 | a segment next in line keeps the delivered stream intact iff it fits the buffer |
| ReceiverProofs.RecoverMeaning | src/lib/processtou.cpp:589-628 | recovery moves a prefix of the heap and stops at a gap, at a segment without room, or at the assertion |
| ReceiverProofs.RecoverBytes | src/lib/processtou.cpp:601-605 | what recovery appends to cb_recv are the stream's bytes between the old and the new rcv_nxt |
| ReceiverProofs.RecoverAssertsIff | src/lib/processtou.cpp:593-596 | for every heap, the assertion fails exactly when recovery reaches a packet that starts before the end of what it has just taken |
| ReceiverProofs.OverlapMeaning | src/lib/processtou.cpp:593-594 | such a packet is a second copy of the segment or what a NUL left of a retransmission of it |
| ReceiverProofs.CleanNeverAsserts | src/lib/processtou.cpp:593-596 | while every stored packet is a segment, and none is stored twice, the assertion holds |
| ReceiverSteps.PushMeaning | src/lib/tou_sock_table.cpp:235-241 | a push keeps sequence order and every other packet, wherever a tie is placed |
| ReceiverSteps.RcvDataInv | src/lib/processtou.cpp:203-254 | every data packet keeps the receiver invariant, sends at most one ack, and adds exactly the stream's bytes up to the new rcv_nxt unless it overflows |
| ReceiverSteps.AckPolicy | src/lib/processtou.cpp:185-263 | out-of-order data is acknowledged at once, in-sequence data at once if out-of-order data was waiting and otherwise unless it is the turn to queue one, old data and a stalled recovery never |
| ReceiverSteps.ResumeInv | src/lib/processtou.cpp:185-196 | a resumed recovery aborts iff it reaches an overlapping packet, otherwise keeps the receiver invariant, and is acknowledged iff it ends |
| DelayedAck.DelayedAckNeverExits | src/lib/timer_mng.cpp:89-108 | over any interleaving of receive steps, timer scans and forced states no error exit and no sendack assertion is reached |
| DelayedAck.ProcExitsIff | src/lib/timer_mng.cpp:89-108 | proc_delack exits exactly in the error state, or with an ack to queue and no node |
| DelayedAck.ScanExitsIff | src/lib/timer.cpp:311-357 | a scan of a node exits exactly in the error state, or when a due node runs ahead of rcv_nxt |
| DelayedAck.AckEverySecond | src/lib/processtou.cpp:516-549 | of two successive proc_delack calls at least one transmits, whatever happens in between (section 4.2.3.2 of RFC 1122) |
| DelayedAck.ExactlyEverySecond | src/lib/processtou.cpp:516-549 | without scans in between, exactly one of two successive proc_delack calls transmits |
| DelayedAck.TimerSendsEvery500 | src/lib/timer.cpp:311-357 | between two packets the scans that transmit are exactly the first later than 500 ms after a transmitted ack, or 200 ms after a queued one, and then each first one more than 500 ms after the last |
| DelayedAck.ForcedAckIsSent | src/lib/timer.cpp:316-318 | after an immediate ack is asked for, no scan transmits and the next proc_delack does |
| DelayedAck.QueuedAckGoesOutIff | src/lib/timer.cpp:319-331 | a queued ack leaves on a timer scan exactly when more than 200 ms have passed |
| DelayedAck.SentAckRepeatsIff | src/lib/timer.cpp:333-349 | a transmitted ack is repeated by a timer scan exactly when more than 500 ms have passed |
| DelayedAck.TimerPassOne | src/lib/timer.cpp:311-372 | a scan sends at most one ack, exactly when the deadline of the state has passed, and then restarts both deadlines; otherwise it changes nothing |
| SenderProofs.AvoidanceCount | src/lib/processtou.cpp:39-50 | the number of passes is even and each has a byte of window left to use |
| SenderProofs.SendSafe | src/lib/processtou.cpp:437-490 | send never passes snd_una + min(cwnd, awnd, half the buffer), emits consecutive non-empty segments of at most SMSS, and transmits exactly the bytes it pops |
| SenderProofs.SendUsesWindow | src/lib/processtou.cpp:454-490 | send does not stop early: segments are as long as SMSS, min(cwnd, awnd, half the buffer) and the queue allow, and it ends with an empty queue, in avoidance within one SMSS of the window after an even number of segments, otherwise with less than 1400 bytes of window left |
| AckLaws.SendArms | src/lib/processtou.cpp:484-486 | every segment transmitted gets a timer node behind those in flight: its copied bytes, its time, and a deadline one timeout later |
| AckLaws.FirstTimeoutIff | src/lib/timer.cpp:380-398 | an idle sender's first segment is repeated by a scan exactly if more than one timeout has passed |
| AckLaws.AckChangesWindow | src/lib/processtou.cpp:58-75 | an ack of snd_una changes the window as a duplicate, every other ack as a new one |
| AckLaws.RexmitOnThird | src/lib/processtou.cpp:153-166 | an ack retransmits exactly if it is the third duplicate in a row, exits then if the segment was cut short, and transmits only new segments otherwise |
| AckLaws.AckUsesWindow | src/lib/processtou.cpp:173-177 | every ack, duplicate, old or new, is followed by sending all that the new window allows |
| AckLaws.AckFeedsEstimate | src/lib/timer.cpp:133-155 | an ack that is not newer leaves the estimate alone; a newer one leaves it alone if the segment ending there was transmitted more than once, and otherwise blends in the time since its only transmission (section 3 of RFC 6298) |
| AckLaws.RoundTripMeasured | src/lib/timer.cpp:133-155 | a segment sent by an idle sender at t1 and acknowledged at t2 feeds t2 - t1, at least 10 ms, into the estimate |
| SenderProofs.SendsWhenIdleIff | src/lib/processtou.cpp:454-463 | with nothing in flight send transmits iff the window is above SMSS in avoidance, or at least 1400 otherwise |
| SenderProofs.SendLeavesNothingStranded | src/lib/processtou.cpp:437-490 | after send the queue is empty or something is in flight |
| SenderProofs.SendInv | src/lib/processtou.cpp:437-490 | send keeps tiling, conservation, Karn's rule and the log of transmissions |
| AckProofs.AckInInv | src/lib/processtou.cpp:142-180 | an ack at a boundary exits exactly if it asks for a fast retransmit of a segment cut short, and otherwise keeps the sender invariant; snd_una becomes the larger number |
| AckProofs.AdvanceInv | src/lib/timer_mng.cpp:139-144 | cleaning after a newer ack leaves the nodes of exactly the unacknowledged segments |
| AckProofs.ClearTimerMeaning | src/lib/timer.cpp:429-445 | the timer thread's cleaning removes exactly the nodes with p_id <= snd_una |
| AckProofs.CleaningsAgreeIff | src/lib/timer.cpp:455-499 | the two cleaning loops leave the same heap iff no two nodes end at the acknowledged number |
| AckProofs.TilesClear | src/lib/timer.cpp:455-499 | on a tiled heap both loops leave the same tiled rest and the sample is the node ending at the ack |
| AckProofs.SamplesAreUnambiguous | src/lib/timer.cpp:133-155 | every RTT sample, whether or not it changes the estimate, comes from a segment transmitted exactly once (section 3 of RFC 6298) |
| AckProofs.CalRtoRange | src/lib/timer.cpp:133-155 | the estimate stays between 8 ms and the larger of its old value and the sample, each sample leaves an eighth of the error up to rounding, and the timeout is twice the estimate |
| AckProofs.FrontResent | src/lib/timer.cpp:398-405 | re-sending the front node transmits the segment at snd_una, or what a NUL left of it, marks it and keeps the invariant |
| AckProofs.PostponeMeaning | src/lib/timer.cpp:519-574 | every node behind the front is re-armed from its own send time; nothing else changes |
| AckProofs.PostponeAssertsIff | src/lib/timer.cpp:536-537 | on any heap the assertion fails exactly if some node behind the front has been retransmitted |
| AckProofs.PostponeInv | src/lib/timer.cpp:536-537 | on the sender's heap the assertion on the send time never fails |
| AckProofs.TimeOutInv | src/lib/timer.cpp:380-418 | a timer scan never aborts; it is idle or re-sends the front node: exactly the segment at snd_una unless it was cut short |
| AckProofs.TimeOutDue | src/lib/timer.cpp:380-418 | a scan is a timeout exactly if the front deadline has passed; a timeout restarts the window and leaves the round-trip estimate alone, any other scan changes nothing |
| AckProofs.TimeOutDeadlines | src/lib/timer.cpp:398-413 | after a timeout the front node waits two timeouts from now and, with fewer than eight nodes, each other node two timeouts from its own transmission |
| AckProofs.FastRexmitInv | src/lib/timer.cpp:601-652 | a fast retransmit exits exactly if the front node was cut short, and otherwise re-sends exactly the segment at snd_una, whose node loses its send time and waits one timeout |
| AckProofs.FastRexmitMeaning | src/lib/timer.cpp:601-652 | on any heap, nodes that start before the wanted number are thrown away, and the first other one is re-sent and re-armed, or ends the process if it starts later |
| AckProofs.Conservation | src/lib/processtou.cpp:437-490 | accepted bytes are the acknowledged ones, those in flight and the queue, in order; the timer nodes hold the bytes in flight iff none of them is NUL |
| AckProofs.RetransmitFaithfulIff | src/lib/timer_node.cpp:12-25 | a node re-sends its segment iff the payload has no NUL byte |
| AckProofs.FastRexmitExitsIff | src/lib/timer.cpp:642-647 | a fast retransmit of the first node, whatever is in flight behind it, exits iff its payload has a NUL byte |
| TouTypes.CStrIdentityIff | src/lib/timer_node.cpp:18-20 | the C-string copy, which stops at the first NUL, is the identity iff there is none |
| Congestion.CongestionInvariant | src/lib/tou_ss_ca.cpp:34-191 | over every history of window events there is no division by zero, SMSS <= cwnd <= half the buffer, ssthresh >= 2 SMSS, and getwnd is at most cwnd and awnd (sections 3.1 and 3.2 of RFC 5681) |
| Congestion.FiresOncePerEpisode | src/lib/tou_sock_table.cpp:267-272 | over every history fast retransmit fires once per entry into recovery |
| Congestion.DupBurst | src/lib/tou_ss_ca.cpp:150-183 | n duplicates in a row fire once iff they reach the threshold outside recovery |
| Congestion.EpisodeHalvesWindow | src/lib/tou_ss_ca.cpp:139-191 | from any state outside recovery, a run of duplicates that reaches the third and the ack that ends it leave avoidance with cwnd = ssthresh = max(old cwnd/2, 2 SMSS), however many duplicates came (section 3.2 of RFC 5681, with cwnd for FlightSize) |
| Congestion.SlowStartRun | src/lib/tou_ss_ca.cpp:45-57 | k new acks below ssthresh open the window by k segments and nothing else |
| Congestion.TimeoutRestarts | src/lib/tou_ss_ca.cpp:99-131 | a timeout and k new acks leave k + 1 segments of window on the way to half the old one |
| Congestion.FrIffThreeKeptIff | src/lib/tou_ss_ca.cpp:139-191 | setdwnd keeps "recovery iff three duplicates" iff the ack is snd_una or recovery is off |
| Congestion.AvoidanceIsLinear | src/lib/tou_ss_ca.cpp:59-63 | cwnd/SMSS new acks open the window by at most one SMSS in total |
| Congestion.AvoidanceFixpoint | src/lib/tou_ss_ca.cpp:59-63 | avoidance growth never passes SMSS^2 + 1 and stands still there |
| WindowLaws.WindowIsLargest | src/lib/tou_ss_ca.cpp:84-91 | a number is within the usable window exactly if it is within cwnd, the advertised window and half of the buffer |
| WindowLaws.DuplicatesInARow | src/lib/tou_ss_ca.cpp:45-79 | over every history the duplicate count is the number of duplicates in a row, recovery means three or more, and a retransmit fires exactly on each third |
| WindowLaws.FiresIffThreeInARow | src/lib/tou_sock_table.cpp:267-272 | a fast retransmit fires in a history exactly if three duplicates came in a row |
| WindowLaws.InitialSlowStart | src/lib/tou_ss_ca.cpp:45-57 | k new acks after the handshake open the window from two segments to k + 2 |
| WindowLaws.NewAckAvoids | src/lib/tou_ss_ca.cpp:50-63 | the ack that ends slow start, and every new ack in avoidance, adds the integer part of SMSS^2/cwnd, up to the cap, and clears the duplicate count |
| WindowLaws.AvoidanceKeepsGrowing | src/lib/tou_ss_ca.cpp:59-63 | k new acks in avoidance add at least k times what one more would still add |
| WindowLaws.RecoveryInflates | src/lib/tou_ss_ca.cpp:150-183 | in recovery the window is half the old one plus one segment for each duplicate, up to the cap |
| SscaObject.Ssca.AddWnd | src/lib/tou_ss_ca.cpp:34-79 | the in-place update is the window function of a new ack |
| SscaObject.Ssca.GetWnd | src/lib/tou_ss_ca.cpp:84-91 | returns and caches the capped minimum of the two windows, changing nothing else |
| SscaObject.Ssca.SetTWnd | src/lib/tou_ss_ca.cpp:99-131 | the in-place update is the window function of a timeout |
| SscaObject.Ssca.SetDWnd | src/lib/tou_ss_ca.cpp:139-191 | the in-place update is the window function of a duplicate ack |
| CircBuf.CircularBuffer.Insert | src/lib/circ_buf.cpp:43-54 | appends all n bytes iff they leave one cell free, else nothing |
| CircBuf.CircularBuffer.InsertAt | src/lib/circ_buf.cpp:56-120 | appends the longest prefix that fits, across the wrap-around |
| CircBuf.CircularBuffer.Remove | src/lib/circ_buf.cpp:127-150 | drops the first min(n, total) bytes of the queue |
| CircBuf.CircularBuffer.GetAt | src/lib/circ_buf.cpp:200-235 | reads the first min(n, total) bytes; end is the position after them |
| CircBuf.CircularBuffer.GetAtPos | src/lib/circ_buf.cpp:159-191 | reads n bytes of the ring from any position |
| CircBuf.CircularBuffer.GetAvSize | src/lib/circ_buf.cpp:261-266 | size minus queue length |
| CircBuf.CircularBuffer.TailIsHeadPlusTotal | src/lib/circ_buf.cpp:93-116 | tail == (head + total) % size in every valid state |
| CircBuf.ChainedReadsAreOneRead | src/lib/circ_buf.cpp:159-191 | positional reads chained through end concatenate to one read |
| CircBuf.InsertedContents | src/lib/circ_buf.cpp:88-116 | the two memcpy calls of an insert append to the queue |
| TimerObjects.TimerHeap.ClearAcked | src/lib/timer.cpp:429-445 | the loop computes the cleaning function and keeps the heap in order |
| TimerObjects.TimerHeap.ClearUpTo | src/lib/timer.cpp:455-511 | the loop computes the ack-path cleaning and its RTT sample |
| TimerObjects.TimerHeap.RexmitForDupAck | src/lib/timer.cpp:601-652 | the loop exits, transmits and re-arms as the retransmission function |
| TimerObjects.TimerHeap.PostponeTimer | src/lib/timer.cpp:519-574 | the two loops through a second heap compute the postpone function |
| TimerObjects.PushKeepsOrder | src/lib/timer.h:117-126 | a push keeps p_id order and every node, and adds only the copied one |
| TimerObjects.AckDeque.UpdateAck | src/lib/timer_mng.cpp:89-127 | re-arms the connection's ack node, adds one on transmission, or exits |
| ProcessTouObject.SockTb.constructor | src/lib/tou_sock_table.cpp:20-36 | empty buffers and heap, initial timeouts, slow start |
| ProcessTouObject.ProcessTou.Establish | src/lib/tou.cpp:86-145 | the control block after the handshake is the initial state of the network model |
| ProcessTouObject.ProcessTou.GetSendSize | src/lib/processtou.cpp:497-508 | the part of the window not in flight, zero if it has shrunk |
| ProcessTouObject.ProcessTou.PopSndQ | src/lib/processtou.cpp:338-351 | reads and removes the same prefix of cb_send |
| ProcessTouObject.ProcessTou.Send | src/lib/processtou.cpp:437-490 | transmits and leaves what the send function says |
| ProcessTouObject.ProcessTou.SendPasses | src/lib/processtou.cpp:454-488 | the loop stops, transmits and pops as the recursive send, from any number of passes left |
| ProcessTouObject.ProcessTou.ProcAck | src/lib/processtou.cpp:147-171 | what an ack does before anything new is sent: window, cleaning, estimator, fast retransmit, and where it exits |
| ProcessTouObject.ProcessTou.AckIn | src/lib/processtou.cpp:142-180 | proc_ack, delete_timer or setdwnd, fast retransmit and send equal the ack function, including where it exits |
| ProcessTouObject.ProcessTou.CalRto | src/lib/timer.cpp:133-155 | in-place update of the timeout and the round-trip estimate |
| ProcessTouObject.ProcessTou.ProcSndPkt | src/lib/timer.cpp:380-418 | cleaning, firing, marking, postponing and settwnd equal the timeout function |
| ProcessTouObject.ProcessTou.ProcDelack | src/lib/processtou.cpp:516-549 | the in-place state machine equals the delayed-ack function |
| ProcessTouObject.ProcessTou.ProcDelackXmit | src/lib/timer.cpp:311-357 | one node of the deque, including the assertion in sendack |
| ProcessTouObject.ProcessTou.TimerProcDelack | src/lib/timer.cpp:362-372 | the scan loop equals the function of a timer pass |
| ProcessTouObject.ProcessTou.DoProcPktRec | src/lib/processtou.cpp:589-628 | the loop equals the recovery function in heap, rcv_nxt, cb_recv and result |
| ProcessTouObject.ProcessTou.ProcPktRec | src/lib/processtou.cpp:558-579 | recovery plus the immediate-ack state and the runstate |
| ProcessTouObject.ProcessTou.PutCircBuf | src/lib/processtou.cpp:370-390 | all or nothing into cb_recv |
| ProcessTouObject.ProcessTou.ProcessGetPktState | src/lib/processtou.cpp:290-330 | the classification of a packet, and where it exits |
| ProcessTouObject.ProcessTou.Turn | src/lib/processtou.cpp:119-265 | each turn moves to a state of lower rank and leaves exactly the rest of the run to do |
| ProcessTouObject.ProcessTou.Run | src/lib/processtou.cpp:82-282 | the state machine terminates on every inbox and computes the run function: state, acks, unread packets, abort |
| ProcessTouObject.ProcessTou.TouSend | src/lib/tou.cpp:249-256 | queues all or nothing, then sends what the window allows |
| ProcessTouObject.ProcessTou.TouRecv | src/lib/tou.cpp:265-282 | returns and removes a prefix of cb_recv; in CLOSE_WAIT it returns none |
| HeaderCodec.ParsePrint | src/lib/tou_header.cpp:42-68 | parsing a printed packet recovers flags, window, the low 32 bits of the words and the counted payload bytes |
| HeaderCodec.Layout | src/lib/tou_header.cpp:85-127 | the header byte by byte: three little-endian words, data offset, flags from 0x80 to 0x01, window, payload |
| HeaderCodec.SurvivesIff | src/lib/tou_header.cpp:85-127 | a packet survives the wire, up to doff and dres, iff its words fit in 32 bits and buflen counts the payload |
| HeaderCodec.PrinterInjective | src/lib/tou_header.cpp:85-127 | packets that survive print alike only if they agree outside doff and dres |
| HeaderCodec.PrintParse | src/lib/tou_header.cpp:42-68 | printing a parsed datagram restores every byte but byte 12 |
| HeaderCodec.FlagByteInverse | src/lib/tou_header.cpp:109-118 | every value of byte 13 is rebuilt from the flags read from it |
| HeaderCodec.FlagsInverse | src/lib/tou_header.cpp:52-59 | the eight flag bits are read back as they were written |
| HeaderCodec.DatagramCarriesPacket | src/lib/timer.cpp:276-292 | what the peer parses from gen_pkt, sendack and sendpkt is the packet of the network model |
| HeaderCodec.TouPkg.ToString | src/lib/tou_header.cpp:85-127 | the appending printer yields the printed form |
| HeaderCodec.TouPkg.Assign | src/lib/tou_header.cpp:42-68 | the assigning parser yields the parsed form and leaves doff and dres alone |

## Left out

- Sockets, select and ioctl calls, address conversion, logging and the demonstration programs: no protocol content; the waiting datagrams of a socket are the inbox of a run.
- Mutexes and the interleavings of threads inside one step: every step is atomic.
- The handshake's own packets and their loss, and connection teardown: the model starts from the agreed sequence numbers; a SYN or FIN that reaches run is classified and handled.
- Other connections in the shared timer heap and ack deque: connection and timer ids are not modelled, so neither is the exit(1) for a foreign node.
- Both applications sending at once: the theorems are for data in one direction; data packets and acks are modelled in both sockets.
- Sequence-number wrap-around, the width of `dupackcount`, `int` truncation of window sizes and floating-point rounding in `cal_rto`.
- `setSize` on a buffer in use: only the constructor of a socket table entry calls it; allocation failure is not modelled.
- The return value of run, which only tells the timer loop when to stop calling it.
- C++ memory management: `delete tp` before a packet was read, leaked payloads, uninitialised header fields.
- A datagram shorter than the header: the parser reads out of bounds, so `HeaderCodec.Parse` requires 16 bytes; likewise `Print` requires a payload that holds the bytes its length field counts.
- A 64-bit `u_long` in the parser: only the low four bytes are assigned and the rest stay uninitialised; the parser is modelled for 32 bits.
- Liveness under fairness: `Stalls.FullDeliveryPossibleIff` says when a finishing continuation exists, not that every schedule finds it.
- HeaderCodec.TouPkg.FlagBits: adds the flag bits instead of OR-ing them, because no two flags share a bit.
- TimerObjects.TimerHeap.Push: is the sequence in p_id order, not the array heap of the C++ library, whose code is not part of this repository.
- `src/lib/tou_process_send.cpp`: not part of the library build.
