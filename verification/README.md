# Verified models of the UCAS network labs

Four labs of this repository contain protocol or algorithm logic. This project
models them in Dafny 4.11 and proves what they are for. `dafny verify
dfyconfig.toml` checks everything.

| files | what they model |
|---|---|
| `StpSwitch.dfy`, `StpNetwork.dfy`, `StpTree.dfy`, `StpHistory.dfy`, `StpConvergence.dfy` | the spanning tree protocol of lab4: one switch, many switches on point-to-point links, the tree they settle on, where their vectors come from, and that fair runs settle for good |
| `TcpReceiver.dfy`, `TcpSender.dfy`, `TcpControl.dfy`, `TcpStream.dfy`, `TcpDelivery.dfy`, `TcpProgress.dfy`, `RingBuffer.dfy`, `SeqNumbers.dfy` | the reliable byte stream of lab12: both ends, congestion control and timer, one data direction over a network that loses, repeats and reorders, what every run keeps, and that fair runs deliver |
| `Routes.dfy` | the route computation of lab7 |
| `Nat.dfy`, `NatProperties.dfy` | the translation table of lab8 |

Code that changes fields, buffers or lists in place is a class whose methods are
proved against functions on the class's value (`View()`); the protocol proofs
are about those functions, so they hold of the methods. Lists are sequences.
Handlers are atomic, except that a reader may empty the receive buffer while a
handler waits for room in it.

## What the proofs assume

- STP: every link joins two ports of different switches, switch identifiers are
  distinct 64-bit numbers, a switch has at most 32 ports, every path cost is 1,
  and nothing ages. A port may be without a peer. Costs are unbounded integers;
  `StpTree.ClaimsAreTrue` shows that they stay below the number of switches, so
  the 32-bit fields do not wrap.
- TCP: sequence numbers are unbounded and start above 0, which the sentinel 0 in
  `duack` and `recovery_point` and the plain comparisons at
  lab12/12-tcp_stack/tcp_in.c:169 and lab12/12-tcp_stack/tcp_in.c:245 need.
  `SeqNumbers` shows what the 32-bit comparators make of such numbers (the
  signed subtraction is taken to wrap). A connection starts where its SYN or
  SYN|ACK is answered, after any number of timeouts; nothing is written after a
  close.
- Routes: networks arrive already masked with their netmask.
- NAT: inbound packets are addressed to the external interface. That no static
  rule may use a pool port is not assumed but shown to be the exact condition.

## Where the code does not do what it says

- NAT: a rule whose external port lies in the pool breaks the bookkeeping of
  `assigned_ports` with the first packet it admits
  (`NatProperties.PoolConservedIffRulesOutside`).
- NAT: `is_flow_finished` compares the numbers at which packets start, with
  `>=`, and an ack equal to a number does not acknowledge it. A flow counts as
  finished with the second FIN if that carries the number expected next and
  reaches every start number of the other side, as in an ordinary close: before
  it is acknowledged, and if the FINs crossed, with neither acknowledged
  (`NatProperties.SecondFinFinishes`, `NatProperties.CrossingFins`). A sweep at
  that moment drops the mapping. Both FINs are acknowledged exactly when the
  recorded acks lie strictly beyond them (`NatProperties.FinishedFinsAcked`).
- NAT: the FIN marks follow the last packet of each direction, so the plain
  acknowledgment that ends an ordinary close clears one again. If no sweep came
  between the second FIN and that packet, the mapping stays for the whole 60
  seconds (`NatProperties.OrdinaryCloseWaits`).
- TCP: `adv_wnd` is 16 bits wide and a FIN's acknowledgment adds one to it: with
  a 65535-byte window and nothing left in flight it wraps to 0, and only then
  (`TcpDelivery.FlowIsConserved`); a run that gets there is
  `TcpDelivery.AdvWndWraps`.
- TCP: pure acknowledgments that overtake data are stored in the out-of-order
  list, and the data segment with the same number is then refused. It is stored
  exactly when its number is not taken (`TcpDelivery.StoredUnlessPending`,
  `TcpDelivery.AckTakesPlace`).
- TCP: the window is counted in whole segments, so a sender that was granted
  less than one never sends a byte; from one segment on every write can get through
  (`TcpProgress.SmallWindowBlocks`, `TcpProgress.WriterGetsThrough`).

## Model

| member | source | states |
|---|---|---|
| StpSwitch.Stp.constructor | lab4/04-stp/stp.c:323-361 | a new switch takes itself for the root and every port of it is designated |
| StpSwitch.Stp.PortSendConfig | lab4/04-stp/stp.c:68-93 | a port sends the switch's own offer, and nothing while a switch that is not root has no root port |
| StpSwitch.Stp.SendAllConfigs | lab4/04-stp/stp.c:95-103 | the loop sends what `SendConfigs` says |
| StpTree.SendConfigsExactly | lab4/04-stp/stp.c:68-103 | that is: exactly the designated ports send, each the current offer, and none while a switch that is not root has no root port |
| StpTree.SendConfigsOrdered | lab4/04-stp/stp.c:95-103 | in port order, each port once |
| StpSwitch.Stp.ElectRootPort | lab4/04-stp/stp.c:219-235 | the first loop elects what `FindRootPort` elects and derives root and cost from it |
| StpSwitch.Stp.ClaimPorts | lab4/04-stp/stp.c:247-258 | the second loop makes exactly the ports not superior to the new offer designated |
| StpSwitch.Stp.RefreshPorts | lab4/04-stp/stp.c:260-266 | the third loop gives exactly the designated ports the new root and cost |
| StpSwitch.Stp.HandleConfigPacket | lab4/04-stp/stp.c:189-278 | the handler changes the switch and sends messages as the function the network is built from says |
| StpSwitch.Stp.HelloTimeout | lab4/04-stp/stp.c:105-112 | the hello timer sends from every designated port and keeps running |
| StpNetwork.FindRootPortMinimal | lab4/04-stp/stp.c:222-232 | no candidate is better than the elected port in (root, cost, switch), for all its tie-breaking by the wrong port number |
| StpTree.RootPortTieBreak | lab4/04-stp/stp.c:222-232 | among several links to the same best switch: no later one stores a port number below the root port's own, and the root port is the first of them or stores a number below that of an earlier one |
| StpTree.PortIdParts | lab4/04-stp/stp.c:349-349 | a port number is the priority 128 and the port counted from one |
| StpNetwork.RecomputeShape | lab4/04-stp/stp.c:233-266 | the loops together: a port holds the new offer unless it is a candidate superior to it |
| StpNetwork.HandleLocal | lab4/04-stp/stp.c:201-266 | a message from a peer can always be handled; designated ports hold exactly the switch's offer, others are superior to it, the root port is never claimed, and nothing gets worse |
| StpNetwork.StepKeepsInv | lab4/04-stp/stp.c:189-278 | every step keeps: what a port or message holds is real and not better than what the peer offers now, and each switch is consistent |
| StpNetwork.ReachableInv | lab4/04-stp/stp.c:114-122 | all this holds in every state of every run from the initial ports on |
| StpHistory.EveryVectorWasOffered | lab4/04-stp/stp.c:68-93 | in every state of every run each message in flight and each adopted vector is word for word an offer the peer made in that state or an earlier one |
| StpTree.RootPortAlwaysFound | lab4/04-stp/stp.c:219-235 | no delivery makes the handler dereference a missing root port |
| StpTree.DeliveryIsAnswered | lab4/04-stp/stp.c:203-205 | an inferior message is answered with the current offer through its port, an adopted one (lines 207-276) through every designated port |
| StpTree.StepSendsExactly | lab4/04-stp/stp.c:95-278 | and nothing else is ever sent: a step adds exactly the current offers of the port an inferior message came in on, or of the designated ports |
| StpTree.EveryLinkHasDesignatedEnd | lab4/04-stp/stp.c:203-266 | in every reachable state every link has a designated end, however stale the messages in flight |
| StpTree.ClaimsAreTrue | lab4/04-stp/stp.c:68-93 | every (root, cost) held or in flight names an existing switch that many links away, cost 0 only at the root itself, cost below the number of switches |
| StpTree.SmallestNeverChanges | lab4/04-stp/stp.c:201-212 | the switch with the smallest identifier stays as initialised for ever |
| StpTree.RunMonotone | lab4/04-stp/stp.c:201-266 | over any run no port vector and no switch's (root, cost) gets worse |
| StpTree.ChangeDecreasesMeasure | lab4/04-stp/stp.c:201-266 | a step that changes a port vector strictly decreases a natural number |
| StpTree.ChangesBounded | lab4/04-stp/stp.c:201-266 | in a run of any length the number of changing steps is bounded by a number fixed by the topology |
| StpTree.QuiescentIsSpanningTree | lab4/04-stp/stp.c:142-278 | a reachable state of a connected network that no designated port's message would change is a spanning tree: one root, the smallest identifier; costs are hop distances; the end nearer to the root of each link, or the smaller switch's, is its one designated end; root ports lead one hop nearer, to the smallest such neighbour |
| StpTree.RootPortsLeadToRoot | lab4/04-stp/stp.c:233-235 | following root ports reaches the root after exactly `root_path_cost` links |
| StpTree.RootPortsAreTreeEdges | lab4/04-stp/stp.c:233-235 | the root ports are n - 1 distinct links |
| StpConvergence.QuiescentIsFinal | lab4/04-stp/stp.c:201-266 | from such a state on no switch changes again in any field, whatever stale messages are delivered |
| StpConvergence.SettledExactly | lab4/04-stp/stp.c:201-266 | and only such states: a state is quiescent exactly when no continuation of the run changes any switch |
| StpConvergence.FairRunsReachTree | lab4/04-stp/stp.c:95-278 | call a stretch of a run a fair round if every port gets one current offer through or stops being designated: after more fair rounds than a number fixed by the state at their start the network is the spanning tree and stays it, whatever else is lost, repeated or stale |
| StpConvergence.EveryRunCanStabilise | lab4/04-stp/stp.c:95-112 | every run can be continued to such a state even after the links lost all they carried: a running hello timer sends again, and its offers are relayed along root ports (lines 203-205, 276) until every designated port has offered |
| StpConvergence.EveryRunCanReachTree | lab4/04-stp/stp.c:189-278 | so every run of a connected network, with everything in flight lost, can be continued to the spanning tree |
| RingBuffers.RingBuffer.constructor | lab12/12-tcp_stack/include/ring_buffer.h:17-26 | an empty queue of the given capacity |
| RingBuffers.RingBuffer.Used | lab12/12-tcp_stack/include/ring_buffer.h:33-39 | the modular difference is the number of waiting bytes |
| RingBuffers.RingBuffer.Free | lab12/12-tcp_stack/include/ring_buffer.h:41-48 | used and free always add up to size - 1 |
| RingBuffers.RingBuffer.Read | lab12/12-tcp_stack/include/ring_buffer.h:64-84 | removes and returns the oldest min(used, asked) bytes, across the wrap too |
| RingBuffers.RingBuffer.Write | lab12/12-tcp_stack/include/ring_buffer.h:87-104 | appends the bytes, across the wrap too |
| RingBuffers.ReadWindow | lab12/12-tcp_stack/include/ring_buffer.h:69-79 | the two-part copy takes a prefix of the queue and leaves the rest |
| RingBuffers.WriteWindow | lab12/12-tcp_stack/include/ring_buffer.h:92-102 | the two-part copy appends to the queue and disturbs nothing in it |
| SeqNumbers.ComparatorsAgree | lab12/12-tcp_stack/include/tcp.h:10-13 | the 32-bit comparators order numbers less than 2^31 apart as the unbounded ones |
| SeqNumbers.ComparatorsTurnOver | lab12/12-tcp_stack/include/tcp.h:10-13 | at a distance of 2^31 they no longer do |
| TcpReceiver.TcpReceiver.constructor | lab12/12-tcp_stack/tcp_sock.c:46-82 | an empty receive side with a 65535-byte window |
| TcpReceiver.TcpReceiver.WaitForSpace | lab12/12-tcp_stack/tcp_in.c:131-134 | waiting ends with enough room, and the bytes given to the reader and those buffered stay the same stream |
| TcpReceiver.TcpReceiver.InsertOutOfOrder | lab12/12-tcp_stack/tcp_in.c:167-175 | the list walk inserts before the first larger sequence number |
| TcpReceiver.TcpReceiver.DrainOutOfOrder | lab12/12-tcp_stack/tcp_in.c:178-215 | the loop consumes what the drain function consumes, whatever the reader does meanwhile |
| TcpReceiver.TcpReceiver.Receive | lab12/12-tcp_stack/tcp_in.c:93-223 | window check and reception: new state, whether an acknowledgment leaves, and the advertised window |
| TcpReceiver.TcpReceiver.SockRead | lab12/12-tcp_stack/tcp_sock.c:413-425 | returns the oldest bytes buffered, nothing at the end of the stream, and reopens the window |
| TcpSender.TcpSender.constructor | lab12/12-tcp_stack/tcp_sock.c:46-82 | the initial windows and congestion state |
| TcpSender.TcpSender.SetRetransTimer | lab12/12-tcp_stack/tcp_timer.c:94-107 | arms an idle timer, restarts an armed one only in mode 0 |
| TcpSender.TcpSender.UnsetRetransTimer | lab12/12-tcp_stack/tcp_timer.c:109-117 | disarms the timer and changes nothing else |
| TcpSender.TcpSender.UpdateWindowOf | lab12/12-tcp_stack/tcp_in.c:12-78 | the window update and what it resends, in handshake and afterwards |
| TcpSender.TcpSender.UpdateWindowSafely | lab12/12-tcp_stack/tcp_in.c:81-85 | it happens exactly for acks between `snd_una` and `snd_nxt` |
| TcpSender.TcpSender.PruneSendBuf | lab12/12-tcp_stack/tcp_in.c:227-236 | the loop unlinks exactly the covered segments and reports whether there were any |
| TcpSender.TcpSender.AckTheSendBuf | lab12/12-tcp_stack/tcp_in.c:226-267 | pruning, recovery and the timer after an ack |
| TcpSender.TcpSender.ProcessAckOf | lab12/12-tcp_stack/tcp_in.c:347-351 | every window update is followed by pruning for the same ack |
| TcpSender.TcpSender.TransmitData | lab12/12-tcp_stack/tcp_out.c:32-66 | numbers the data from `snd_nxt` and keeps a copy |
| TcpSender.TcpSender.TransmitControl | lab12/12-tcp_stack/tcp_out.c:73-108 | SYN and FIN take one number and are kept, plain acknowledgments are not |
| TcpSender.TcpSender.SockWrite | lab12/12-tcp_stack/tcp_sock.c:426-449 | segments of at most one MSS leave until all is written or the window is closed |
| TcpSender.TcpSender.Close | lab12/12-tcp_stack/tcp_sock.c:393-412 | sends a FIN and goes to FIN_WAIT_1 from the established state and to LAST_ACK after the peer's FIN; nothing in any other |
| TcpStream.CloseEffect | lab12/12-tcp_stack/tcp_sock.c:393-412 | one FIN with the next number, FIN_WAIT_1 from the established state and LAST_ACK after the peer's FIN, the timer started unless it runs; nothing at all in any other state |
| TcpSender.TcpSender.ScanTimer | lab12/12-tcp_stack/tcp_timer.c:36-87 | the retransmission branch: counts down, resends the first segment with a doubled timeout, or gives up |
| TcpControl.UpdateKeepsCongestion | lab12/12-tcp_stack/tcp_in.c:27-69 | every window update keeps the congestion state in one of three modes: open, reducing, recovering |
| TcpControl.AckKeepsCongestion | lab12/12-tcp_stack/tcp_in.c:238-260 | so does the pruning that follows |
| TcpControl.ScanKeepsCongestion | lab12/12-tcp_stack/tcp_timer.c:59-69 | so does a timeout |
| TcpControl.ReduceStep | lab12/12-tcp_stack/tcp_in.c:58-67 | while reducing from W: ssthresh = W/2 and cwnd = W - W/2 + frpacks/2, one step per ack |
| TcpControl.ReducingRun | lab12/12-tcp_stack/tcp_in.c:58-67 | the phase goes on through any writes and stale acks until W acks in the window have come |
| TcpControl.ReductionTakesWindowAcks | lab12/12-tcp_stack/tcp_in.c:58-67 | it ends after exactly W acks in the window, with cwnd at W/2 rounded up and the recovery point at `snd_nxt` |
| TcpControl.SlowStart | lab12/12-tcp_stack/tcp_in.c:28-30 | below ssthresh every ack adds one |
| TcpControl.CongestionAvoidance | lab12/12-tcp_stack/tcp_in.c:31-38 | above it one is added as soon as the acks counted are as many as the window is wide, from any count, and with the next ack if they are more already |
| TcpControl.OpenUpdate | lab12/12-tcp_stack/tcp_in.c:24-69 | every ack in open mode first grows the window, repeated ones too; a reduction starts from the grown window |
| TcpControl.OpenRun | lab12/12-tcp_stack/tcp_in.c:27-38 | through any mix of writes and acks that repeat nothing, the window grows by exactly the acks that advance it |
| TcpControl.TimeoutOpens | lab12/12-tcp_stack/tcp_timer.c:52-69 | a timeout resends the first segment, leaves one segment of window and half of it (two at least) as threshold, forgets every count and touches no number |
| TcpControl.TimeoutThenSlowStart | lab12/12-tcp_stack/tcp_timer.c:52-69 | slow start is back at half of the old window (two at least) one advancing ack before that many |
| TcpControl.BackOffRun | lab12/12-tcp_stack/tcp_timer.c:40-86 | the timer stays armed for exactly the sum of its doubling periods and resends once per period but the last |
| TcpControl.ScanCloses | lab12/12-tcp_stack/tcp_timer.c:36-87 | a scan closes the sock exactly when an armed timer runs out in its last period or with nothing to resend |
| TcpStream.HandshakeOpens | lab12/12-tcp_stack/tcp_in.c:309-318 | after any number of SYN timeouts an active open ends with nothing in flight, the timer off, the peer's window, cwnd 2, and ssthresh 2 if a timeout came first |
| TcpStream.PassiveHandshakeOpens | lab12/12-tcp_stack/tcp_in.c:319-338 | a passive open ends the same way after any number of SYN+ACK timeouts |
| TcpStream.ProcessKeepsReceiver | lab12/12-tcp_stack/tcp_in.c:107-223 | whatever arrives, the receiver has taken a prefix of the sender's segments and stores only later ones, sorted and drained |
| TcpStream.AckKeepsSender | lab12/12-tcp_stack/tcp_in.c:226-267 | an ack moves the start of `send_buf` to itself, never back, and keeps windows, timer and congestion state consistent |
| TcpStream.SegKeepsWindow | lab12/12-tcp_stack/tcp_in.c:93-97 | no arriving segment moves the right edge of the receive window back, and nothing is stored beyond it |
| TcpStream.StepKeepsInv | lab12/12-tcp_stack/tcp_in.c:339-352 | every step of either end or the network keeps all of this |
| TcpDelivery.StreamIntegrity | lab12/12-tcp_stack/tcp_in.c:107-223 | bytes read followed by bytes in the ring are exactly the written bytes numbered below `rcv_nxt`, in every reachable state |
| TcpDelivery.EndOfStreamIsComplete | lab12/12-tcp_stack/tcp_sock.c:413-418 | the end of the stream is reported only when the peer has closed and every byte has been read |
| TcpDelivery.SendBufferIsComplete | lab12/12-tcp_stack/tcp_in.c:226-236 | `send_buf` is a contiguous run of verbatim segments from the highest ack processed to `snd_nxt`, and what was freed lies below `rcv_nxt` |
| TcpDelivery.OutOfOrderListIsSorted | lab12/12-tcp_stack/tcp_in.c:117-215 | the list is strictly sorted, above `rcv_nxt`, fully drained, and holds only sent segments and pure acknowledgments |
| TcpDelivery.StoredUnlessPending | lab12/12-tcp_stack/tcp_in.c:93-176 | a sent segment that arrives early is in the list afterwards exactly when it was before, or it starts inside the advertised window and its number was not taken |
| TcpDelivery.AckTakesPlace | lab12/12-tcp_stack/tcp_in.c:117-176 | a run in which an acknowledgment has taken the place and the first copy of a data segment is refused |
| TcpDelivery.RightEdgeNeverMovesBack | lab12/12-tcp_stack/tcp_in.c:93-97 | through any steps of both ends and the network the right edge of the receive window never moves back |
| TcpDelivery.AcksAreNotAcked | lab12/12-tcp_stack/tcp_in.c:93-127 | in every reachable state whatever carries data or a FIN is answered, and a pure acknowledgment exactly when it carries neither the next expected number nor one already stored; what is not answered changes nothing |
| TcpDelivery.ReceiveWindowIsRoom | lab12/12-tcp_stack/tcp_in.c:217-217 | the advertised window is the room in the ring and everything stored lies inside it |
| TcpDelivery.FlowIsConserved | lab12/12-tcp_stack/tcp_in.c:23-25 | `adv_wnd` and the bytes in flight add up to the window of the handshake (one more after a FIN), with the one exception named exactly; `snd_wnd` is min(adv_wnd/MSS, cwnd) |
| TcpDelivery.AdvWndWraps | lab12/12-tcp_stack/tcp_in.c:23-25 | the exception is reached: a 65535-byte window, a close at once, its FIN acknowledged, and `adv_wnd` is 0 |
| TcpDelivery.WriteFitsWindow | lab12/12-tcp_stack/tcp_sock.c:434-441 | no write takes `adv_wnd` below zero |
| TcpProgress.SockWriteIsRun | lab12/12-tcp_stack/tcp_sock.c:426-449 | a whole write call is a run of write steps that appends exactly the bytes it takes, stopping early only at a closed window |
| TcpProgress.SockWriteSegments | lab12/12-tcp_stack/tcp_sock.c:429-432 | its segments are one MSS long each, and the last is the rest |
| TcpDelivery.TimerArmedIffUnacked | lab12/12-tcp_stack/tcp_in.c:262-266 | the timer of a live connection is armed exactly when something is unacknowledged |
| TcpDelivery.ProgressRestartsTimer | lab12/12-tcp_stack/tcp_in.c:262-266 | an ack that advances restarts the back-off from its beginning, the last one stops it, any other leaves it as it was |
| TcpDelivery.RunFollowsTimer | lab12/12-tcp_stack/tcp_timer.c:36-87 | through any steps of both ends and the network in which no ack advances, only scans move the timer, and every resend is of the first segment |
| TcpDelivery.GivesUpAfter10220Scans | lab12/12-tcp_stack/tcp_timer.c:36-87 | from a fresh timer, with any writes, closes, losses, deliveries and acks that do not advance in between: the connection is up for exactly 10220 scans, 8 of which resend the first segment |
| TcpDelivery.CongestionModes | lab12/12-tcp_stack/tcp_in.c:27-69 | in every reachable state one of the three modes holds and cwnd is at least 1 |
| TcpDelivery.PartialAckResendsHole | lab12/12-tcp_stack/tcp_in.c:238-260 | in recovery a partial ack resends the segment it points at, a full one ends recovery, others are only counted; the window stays as it is |
| TcpDelivery.FastRetransmitStartsAtAck | lab12/12-tcp_stack/tcp_in.c:39-53 | a window update resends exactly when three equal acks were counted before and something is unacknowledged, and then the segment that starts at the ack number; in open mode that is all an ack resends |
| TcpDelivery.EqualAcksAreCounted | lab12/12-tcp_stack/tcp_in.c:39-57 | through any steps in which the acks in the window all carry one number, up to three of them are counted and nothing is resent |
| TcpDelivery.FourthEqualAckResends | lab12/12-tcp_stack/tcp_in.c:27-57 | the next one after three resends the segment starting at that number, if there is one, and starts a reduction from the window it finds grown by this ack |
| TcpProgress.HeadIsAnswered | lab12/12-tcp_stack/tcp_in.c:93-127 | the first unacknowledged segment is accepted or recognised as old, and answered with a number beyond it, at any receive window |
| TcpProgress.HeadMakesProgress | lab12/12-tcp_stack/tcp_in.c:93-236 | whenever the first unacknowledged segment is delivered and then the answer to it, at any windows, the answer is on its way and strictly shrinks `send_buf` |
| TcpProgress.FairRunsDeliver | lab12/12-tcp_stack/tcp_in.c:93-267 | call a stretch of a run a fair round if a copy of the first unacknowledged segment arrives in it and later the answer: after as many fair rounds as segments were unacknowledged all that was written has arrived and is acknowledged, whatever else is written, lost, repeated or timed out |
| TcpProgress.EverythingCanBeDelivered | lab12/12-tcp_stack/tcp_in.c:107-267 | while a timeout is left, every run can be continued until all bytes written have arrived and are acknowledged, even if everything in flight is lost first |
| TcpProgress.IdleWindow | lab12/12-tcp_stack/tcp_in.c:69-69 | with nothing in flight a writer finds the window open exactly when the handshake granted a whole segment |
| TcpProgress.SmallWindowBlocks | lab12/12-tcp_stack/tcp_sock.c:434-439 | with less than that not a byte is ever sent, in any run |
| TcpProgress.WriterGetsThrough | lab12/12-tcp_stack/tcp_sock.c:426-449 | while a timeout is left, any data can still be written and delivered exactly when the handshake granted a whole segment |
| Routes.InsertedSorted | lab7/07-mospf/mospf_database.c:24-38 | inserting keeps the list ordered by distance, networks at one distance by number |
| Routes.InsertedAfter | lab7/07-mospf/mospf_database.c:24-38 | a node farther than the current one lands strictly after it |
| Routes.LinkIsFollowed | lab7/07-mospf/mospf_database.c:118-127 | stopping at the first advertisement of a network misses no link the entry describes |
| Routes.Router.AddNet | lab7/07-mospf/mospf_database.c:17-40 | the walk inserts the node before the first one that does not precede it |
| Routes.Router.NetAdded | lab7/07-mospf/mospf_database.c:42-49 | true exactly when the network is in the list |
| Routes.Router.LoadKernel | lab7/07-mospf/mospf_database.c:107-112 | the list starts as the directly connected networks at distance 0 |
| Routes.Router.VisitAdvertised | lab7/07-mospf/mospf_database.c:128-131 | an unlisted network is added one hop farther, together with its route |
| Routes.Router.VisitEntry | lab7/07-mospf/mospf_database.c:117-133 | one database entry: everything it leads to from the current network is listed |
| Routes.NewIsSmallest | lab7/07-mospf/mospf_database.c:115-131 | a network is learned from the smallest of the networks one hop nearer that have a link to it |
| Routes.NewIsFirst | lab7/07-mospf/mospf_database.c:117-131 | and over the first advertisement, in database order, that leads from there |
| Routes.Router.UpdateRtable | lab7/07-mospf/mospf_database.c:104-141 | the list holds exactly the reachable networks ordered by (dist, nid), each at its shortest hop count and, if the kernel networks are distinct, once; every one beyond them has exactly one route, from the smallest network one hop nearer with the mask of the first such advertisement, in the order of the networks learned from; the walk ends |
| Routes.ClosedIsComplete | lab7/07-mospf/mospf_database.c:115-135 | a list closed under links holds every reachable network at its shortest hop count |
| Nat.Find | lab8/08-nat/nat.c:80-98 | the first matching mapping of the bucket, or none |
| Nat.FindRule | lab8/08-nat/nat.c:108-116 | the first rule for the external endpoint, or none |
| Nat.FindPort | lab8/08-nat/nat.c:129-136 | the first free port of the pool, or none |
| Nat.HashBits | lab8/08-nat/include/hash.h:11-18 | a bit of the bucket key is set when it is set in an odd number of the six bytes of the remote endpoint |
| Nat.NatTable.constructor | lab8/08-nat/nat.c:337-347 | an empty table with all ports free |
| Nat.NatTable.NewMapping | lab8/08-nat/nat.c:99-152 | a new mapping, or the refusal, for each direction |
| Nat.NatTable.DoTranslation | lab8/08-nat/nat.c:53-178 | lookup or creation, rewriting and statistics of one packet |
| Nat.NatTable.SweepBucket | lab8/08-nat/nat.c:245-252 | the inner loop ticks every entry, unlinks exactly the expired ones and frees their ports |
| Nat.NatTable.SweepAll | lab8/08-nat/nat.c:243-253 | one sweep over all buckets |
| NatProperties.TranslateKeepsInv | lab8/08-nat/nat.c:65-160 | a packet in either direction keeps ports and mappings in agreement |
| NatProperties.SweepKeepsInv | lab8/08-nat/nat.c:243-252 | so does a sweep |
| NatProperties.RuleInPoolBreaks | lab8/08-nat/nat.c:105-116 | a rule on a pool port breaks the agreement with one packet |
| NatProperties.PoolConservedIffRulesOutside | lab8/08-nat/nat.c:128-143 | in every run a pool port is marked exactly when exactly one live mapping holds it, if and only if no rule uses a pool port |
| NatProperties.OneBucketSuffices | lab8/08-nat/nat.c:71-98 | both directions hash to the same bucket: a packet that matches nothing in its bucket matches nothing in the table |
| NatProperties.RefusedIffPoolHeld | lab8/08-nat/nat.c:128-142 | an outbound packet is refused exactly when it matches no mapping and every pool port is held |
| NatProperties.MappingIsUnique | lab8/08-nat/nat.c:79-98 | a remote and an external endpoint determine at most one mapping in the whole table |
| NatProperties.OutboundLeavesMapping | lab8/08-nat/nat.c:123-160 | only the source of a forwarded packet changes, and its mapping is in the table |
| NatProperties.UnmatchedInbound | lab8/08-nat/nat.c:99-178 | an inbound packet that belongs to no mapping goes where the first rule for its destination says and leaves a mapping at the end of its bucket that has recorded just it; without a rule it is refused |
| NatProperties.UnmatchedOutbound | lab8/08-nat/nat.c:99-178 | an outbound one takes the smallest pool port that no mapping holds and leaves a mapping that has recorded just it |
| NatProperties.ReplyReachesSender | lab8/08-nat/nat.c:80-156 | while a mapping lives, a reply to its external endpoint goes to its internal endpoint |
| NatProperties.MappingStays | lab8/08-nat/nat.c:245-251 | translations keep every mapping, a sweep keeps every one that has not expired |
| NatProperties.ExpiredIsReleased | lab8/08-nat/nat.c:247-250 | an expired mapping is gone after the sweep and its pool port is free |
| NatProperties.SilentSweeps | lab8/08-nat/nat.c:246-247 | an unfinished mapping outlives 59 silent sweeps and expires with the 60th |
| NatProperties.FlowsAreIndependent | lab8/08-nat/nat.c:65-252 | through any run the first mapping of its (remote, internal) in the list goes on as if only its own packets and the sweeps existed, until a sweep expires it |
| NatProperties.ReplyWithinTimeout | lab8/08-nat/nat.c:65-252 | after an outbound packet and any continuation in which no sweep finds the flow finished or silent for 59 sweeps already, a reply reaches the sender |
| NatProperties.SweepEndsFlow | lab8/08-nat/nat.c:246-251 | a sweep ends such a mapping exactly when it finds it finished or silent for 59 sweeps, whatever other flows did in between |
| NatProperties.FinishedExactly | lab8/08-nat/nat.c:165-233 | a flow counts as finished exactly when the last packet of each direction carried a FIN and every start number sent was reached (`>=`, so not necessarily acknowledged) by an ack number |
| NatProperties.SecondFinFinishes | lab8/08-nat/nat.c:165-233 | after any history with a FIN of one direction, the FIN of the other finishes the flow exactly if it has the number expected next and reaches all start numbers; it is never acknowledged then, and the first FIN only if the second acks beyond it |
| NatProperties.CrossingFins | lab8/08-nat/nat.c:165-233 | two FINs that cross leave a flow finished with neither acknowledged |
| NatProperties.FinishedFinsAcked | lab8/08-nat/nat.c:229-233 | a finished flow has both FINs acknowledged exactly when the recorded acks lie strictly beyond the numbers of the FINs |
| NatProperties.OrdinaryCloseWaits | lab8/08-nat/nat.c:165-247 | a mapping whose last packet carried no FIN, as at the end of an ordinary close, stays for 59 more sweeps and goes with the 60th |
| NatProperties.FlowRecordsPackets | lab8/08-nat/nat.c:99-177 | in any run the entry made by an outbound packet is, while it stays alive, what that packet and the flow's own packets made of an unused mapping |
| NatProperties.FlowFinishedExactly | lab8/08-nat/nat.c:165-247 | so in any run a sweep finds it finished exactly when the last packets of the flow carried FINs and all start numbers were reached |

## Left out

- Raw sockets, interface discovery, header layout and checksums, logging, ICMP answers, TTL and forwarding after translation: I/O.
- The finding of interfaces and directions in lab8 (`get_packet_direction`) beyond the destination check for inbound packets: it depends on the routing table.
- lab10 and the TCP files of lab13: an earlier version and a copy of lab12.
- STP over hubs, a cable between two ports of one switch, topology change notices, ageing: the code does not support them or has none.
- STP time: a run is any interleaving of deliveries and hellos, so how long the tree takes in seconds is not stated.
- StpConvergence.EveryRunCanStabilise: one continuation; that fair runs converge is `StpConvergence.FairRunsReachTree`. That links and timers are fair is assumed there, not modelled.
- StpConvergence.EveryRunCanReachTree: likewise.
- TcpProgress.EverythingCanBeDelivered: one continuation; fair runs are `TcpProgress.FairRunsDeliver`. After the eighth retransmission no timeout is left to repair a loss, and the code gives up.
- TCP states after the sender's FIN (FIN_WAIT_2, CLOSING, TIME_WAIT) and the end of LAST_ACK when that FIN is acknowledged, resets, the listen and accept queues, hash tables and reference counts.
- TcpSender.TcpSender.ScanTimer: the time-wait branch, which frees the sock.
- TcpStream.PassiveHandshakeOpens: a passive open that finds the accept queue full, which closes the new sock.
- A SYN or SYN|ACK that reaches an established connection: it is answered with an acknowledgment, which the model covers by `EmitAck`.
- TcpSender.TcpSender.SockWrite: returns when the window closes where the source sleeps; the rest is further writes.
- Checks of an incoming packet against the other direction's receive window before its ack is used: dropping the ack is a loss here.
- `cwnd` as a bound on packets in flight: it only enters `snd_wnd`, which the code compares with 0. `cwnd` is not wrapped at 32 bits when it grows.
- Routes.Router.VisitAdvertised: the gateway and interface of the new route; it names the network it was learned from.
- Routes.Router.UpdateRtable: likewise, and the kernel entries of `rtable`.
- Nat.NatTable.NewMapping: the refusals return with the lock held in lab8; translations are atomic here and return normally.
- Nat.NatTable.DoTranslation: likewise.
- Uniqueness of (remote, internal) in the NAT table: a static rule and a dynamic mapping may share it.
- NatProperties.FlowsAreIndependent: a mapping that stands behind another with the same (remote, internal); outbound packets find it only once the earlier one has gone.
- NatProperties.SweepEndsFlow: likewise.
- MAC table, ARP cache and longest-prefix match: they would only add easy members.
