# Verified models of the wireless debug probe

This project models the parts of the firmware in which something can silently go
wrong between a host and a target chip, and proves what they promise for all
inputs and all runs. `dafny verify dfyconfig.toml` checks it.

* **KCP** (`Words`, `KcpWire`, `KcpSpec`, `Kcp`, `KcpQueues`, `KcpPolling`,
  `KcpControl`, `KcpTimers`, `KcpCongestion`, `KcpUnbounded`, `KcpMessages`,
  `KcpStream`, `KcpFlush`, `KcpNetwork`, `KcpDelivery`, `KcpProgress`,
  `KcpClosedWindow`, `Iqueue`). `Kcp.ControlBlock` is the control block with its
  fields, loops and in-place updates; each method is proved to compute a function of
  `KcpSpec`. `KcpTimers` and `KcpCongestion` say in numbers what the timers and windows
  do. On the same functions stand the queue invariant for arbitrary input bytes, the
  refinement of circular by unbounded sequence numbers, the flush/input round trip,
  and the end-to-end theorems: two peers, a network that loses, duplicates and
  reorders, and receivers that see a prefix of what was sent; and no reachable state
  is a dead end, from each some run delivers everything. `Iqueue` is the intrusive
  linked list on heap nodes.
* **CMSIS-DAP transfers** (`DapEngine`, `SwdTransfer`, `SwdPipeline`, `SwdMatch`,
  `JtagTransfer`, `JtagPipeline`, `JtagMatch`, `DapBlock`, `SwdBlock`, `JtagBlock`,
  `DapCommand`). `DapCommand.Probe` runs the four transfer commands over the request
  bytes; the pipelined commands refine an executor that makes one access at a time.
* **Wire layers** (`Bits`, `Parity`, `JtagChain`, `JtagDriver`, `SwdWire`). A chain of
  TAPs clocked bit by bit (section 6.1 of IEEE Std 1149.1-2001), and the two SWD
  implementations as traces of clocks (chapter B4 of ARM IHI 0031).
* **WebSocket** (`WsMask`, `WsFrames`, `WsParser`). The in-place parser with its
  1500-byte buffer is proved against an automaton that reads one byte at a time.
* **Tasks and queues** (`UsbipPipeline`, `MemoryPool`, `RequestRunner`, `UartCounts`,
  `UartRing`). State machines over all interleavings, and the UART ring with an
  interrupt that may come between any two statements of the command. `Seqs` holds
  facts about sequences.

Where the code does not meet what is expected of it, the model keeps the code and
the project states exactly when it does (for the KCP window up to a gap named below):

* A control frame between the fragments of a binary message makes the WebSocket
  parser drop the rest of the message (`WsFrames.DeliversMessages`,
  `WsFrames.PingLosesFragment`).
* Two KCP peers can get stuck for good when a receive window is a multiple of 65536,
  which the 16-bit window field shows as 0 (`KcpClosedWindow.DeadEnd`); there is no
  dead end when the field shows 128 or more (`KcpProgress.NoDeadEnd`).
* A send that ikcp_send refuses in stream mode has still queued the bytes that fit into
  the last queued segment (`KcpStream.StreamSend`).
* Both USB/IP tasks block for good once 22 commands are outstanding
  (`UsbipPipeline.OnlyDeadlock`, `UsbipPipeline.FloodBlocks`).
* A UART completion interrupt between two readings of UART_Transfer can make it
  accept more bytes than fit (`UartCounts.FitsExactly`, `UartCounts.UnsafeReachable`,
  `UartRing.Uart.StaleIndex`).
* After a transfer list that is broken off, or one for an unknown JTAG device, the
  number of request bytes that DAP_SWD_Transfer and DAP_JTAG_Transfer return is wrong,
  so that DAP_ExecuteCommands would look for the next command at the wrong place
  (`SwdTransfer.LengthRight`, `SwdTransfer.FaultMisplaces`, `JtagTransfer.LengthRight`).
* With all seven pool buffers held, memory_pool_get stops at its assertion where its
  callers mean to answer that the server is busy (`RequestRunner.EveryRun`,
  `RequestRunner.PoolRunsEmpty`).
* SPI drives the turnaround slot after a refused read, where GPIO releases the line,
  clocks no idle cycles after a read, drives the parity again after more than 32 idle
  cycles, and drives the line after a protocol error (`SwdWire.SameTransaction`,
  `SwdWire.IdleCyclesDiffer`, `SwdWire.IdleLowExactly`, `SwdWire.ErrorClocksDiffer`).

I/O, clocks, randomness and foreign calls are parameters: the line a target drives,
the answer of a statement, the bytes recv returns, the moment of an update.

## Model

| member | source | states |
|---|---|---|
| Words.TimeDiffExact | components/kcp/ikcp.c:136-139 | `_itimediff` of two wrapped numbers is their true difference exactly when that lies in [-2^31, 2^31) |
| KcpWire.DecodeEncodePacket | components/kcp/ikcp.c:54-121 | the little-endian encoders and decoders are inverse on a whole segment, with anything behind it |
| KcpWire.DecodeEncodeAll | components/kcp/ikcp.c:761-780 | the decode loop of ikcp_input over the encoding of any list of segments recovers exactly that list and ends without error |
| KcpWire.Layout | components/kcp/ikcp.c:906-924 | where each field stands in the 24 bytes, least significant byte first: conv at 0, cmd 4, frg 5, wnd 6, ts 8, sn 12, una 16, len 20, payload 24 |
| KcpWire.DecodeStops | components/kcp/ikcp.c:761-786 | whatever follows good segments: fewer than 24 bytes are ignored, otherwise a wrong conversation gives -1, a length beyond the rest or 2^31 gives -2, an unknown command -3, in that order, and the good ones are taken in |
| KcpWire.PackAllHolds | components/kcp/ikcp.c:1049-1114 | packing into datagrams loses, reorders and splits no segment and fills no datagram beyond mtu |
| KcpWire.PackTight | components/kcp/ikcp.c:1089-1095 | and a datagram ends only where the next segment would have gone beyond mtu |
| KcpSpec.PeekSizeIsJoin | components/kcp/ikcp.c:384-411 | when ikcp_peeksize is not negative, the merged fragments have exactly that length: the assertion of ikcp_recv holds |
| Kcp.ControlBlock.constructor | components/kcp/ikcp.c:234-295 | a fresh control block: the initial values of all fields, empty queues whose counters are 0 |
| Kcp.ControlBlock.Send | components/kcp/ikcp.c:469-537 | the fragments appended to snd_queue, the stream-mode extension of the tail, the error codes; counters equal queue lengths |
| Kcp.ControlBlock.ExtendTail | components/kcp/ikcp.c:477-505 | stream mode fills up the last queued segment and nothing else |
| Kcp.ControlBlock.Fragment | components/kcp/ikcp.c:514-534 | the loop appends the remaining fragments with frg counting down (0 in stream mode) |
| Kcp.ControlBlock.PeekSize | components/kcp/ikcp.c:441-463 | the loop sums the first whole message, or reports -1 |
| Kcp.ControlBlock.Recv | components/kcp/ikcp.c:358-435 | merge, move from rcv_buf, window recovery notice, peek for negative lengths, and the three error codes |
| Kcp.ControlBlock.MoveReady | components/kcp/ikcp.c:413-425 | the loop moves consecutive segments until a gap or a full receive queue |
| Kcp.ControlBlock.UpdateAck | components/kcp/ikcp.c:543-558 | the smoothed round trip, the deviation and the bounded rto, in 32-bit arithmetic; KcpTimers says what these are |
| Kcp.ControlBlock.ParseAck | components/kcp/ikcp.c:571-591 | at most the acknowledged segment leaves snd_buf, found by an early-terminating search |
| Kcp.ControlBlock.ParseUna | components/kcp/ikcp.c:593-607 | the loop drops the leading segments below una |
| Kcp.ControlBlock.ParseFastack | components/kcp/ikcp.c:609-631 | the skip counters of the segments passed over by an acknowledgement |
| Kcp.ControlBlock.AckPush | components/kcp/ikcp.c:637-671 | the pair is appended and every earlier pair survives the growth of the array to a power of two |
| Kcp.ControlBlock.ParseData | components/kcp/ikcp.c:683-732 | backward search, insertion in order, repeats and out-of-window segments dropped, then the move to rcv_queue |
| Kcp.ControlBlock.ProcessPacket | components/kcp/ikcp.c:788-869 | one pass of the input loop for each command |
| Kcp.ControlBlock.GrowWindow | components/kcp/ikcp.c:876-897 | congestion window growth, including the divisions and 32-bit wrap |
| Kcp.ControlBlock.Input | components/kcp/ikcp.c:749-900 | for arbitrary bytes: the new control block and the return value -1, -2, -3 or 0 |
| Kcp.ControlBlock.TouchSegment | components/kcp/ikcp.c:1050-1094 | which of first transmission, timeout and fast retransmission applies, and the timers after it |
| Kcp.ControlBlock.FlushData | components/kcp/ikcp.c:1049-1109 | the loop over snd_buf sends the due segments and only these, and sets xmit and the dead-link state |
| Kcp.ControlBlock.FinishFlush | components/kcp/ikcp.c:1116-1137 | the congestion window after loss or fast retransmission, which is that of KcpCongestion.FlushReacts |
| Kcp.ControlBlock.Flush | components/kcp/ikcp.c:931-1138 | the emitted datagrams are the packed acknowledgements, probes and due segments, byte for byte, and the new control block |
| Kcp.ControlBlock.Update | components/kcp/ikcp.c:1146-1171 | when a flush happens, the next flush time, and the datagrams |
| Kcp.ControlBlock.Check | components/kcp/ikcp.c:1183-1219 | the loop over snd_buf finds the earliest moment at which ikcp_update has anything to do |
| KcpQueues.AlwaysOrdered | components/kcp/ikcp.c:560-607 | after any sequence of send, recv, input of arbitrary bytes, flush and update: snd_buf ascends strictly in [snd_una, snd_nxt), snd_una is its head or snd_nxt, snd_nxt - snd_una is at most the window, rcv_buf ascends strictly in [rcv_nxt, rcv_nxt + rcv_wnd), nrcv_que <= rcv_wnd, and the head of rcv_buf is rcv_nxt only when rcv_queue is full; no call on the way moved snd_una or snd_nxt back |
| KcpQueues.CallKeepsOrder | components/kcp/ikcp.c:683-732 | every single call keeps that invariant, and snd_una and snd_nxt never move back |
| KcpQueues.InputKeepsOrder | components/kcp/ikcp.c:749-900 | ikcp_input keeps it for arbitrary, also forged, bytes |
| KcpQueues.FlushKeepsOrder | components/kcp/ikcp.c:1016-1042 | ikcp_flush keeps it while it fills the window |
| KcpQueues.InsertOrders | components/kcp/ikcp.c:689-717 | the search of ikcp_parse_data leaves rcv_buf alone when the number is there, and otherwise inserts at the one place that keeps it strictly ascending |
| KcpPolling.CheckBounded | components/kcp/ikcp.c:1183-1219 | ikcp_check never looks further ahead than the interval |
| KcpPolling.NothingBeforeCheck | components/kcp/ikcp.c:1146-1171 | ikcp_update at any moment before the one ikcp_check names changes only `current` and sends nothing |
| KcpPolling.PollingEqualsSleeping | components/kcp/ikcp.c:1183-1219 | polling at any moments in between and sleeping until then lead to the same state and the same datagrams |
| KcpPolling.CheckEarliest | components/kcp/ikcp.c:1183-1219 | at the moment ikcp_check names the next flush is reached or was far off, or some segment's resend time is reached, or it is exactly one interval ahead; at no earlier moment from now on is the flush or any resend time reached |
| KcpTimers.UpdateWhen | components/kcp/ikcp.c:1146-1172 | ikcp_update flushes exactly on the first call and when the flush moment is reached or more than 10 s off; the next one is one interval after that moment, or after now if that is over, and lies ahead |
| KcpControl.AlwaysSane | components/kcp/ikcp.c:543-558 | in every run, for arbitrary input, the retransmission timeout stays between min(rx_minrto, 200) and 60 s, ssthresh at 2 or more, and a running window probe's wait between 7 s and 120 s |
| KcpControl.FlushKeepsSane | components/kcp/ikcp.c:1116-1137 | and a flush leaves a congestion window of one segment or more |
| KcpControl.SmoothedBetween | components/kcp/ikcp.c:543-555 | the first sample is taken over; after that the smoothed round trip lies between the old one and the sample and is at least 1 |
| KcpTimers.Smoothed | components/kcp/ikcp.c:543-555 | the deviation is half the first sample, and then satisfies 4*rttval' <= 3*rttval + d < 4*rttval' + 4, d being the distance of the sample from srtt; the smoothed time is seven eighths of the old one and an eighth of the sample, rounded down |
| KcpTimers.TimeoutExact | components/kcp/ikcp.c:556-557 | below 60 s the timeout is at least rx_minrto and exceeds the smoothed time by four deviations and by the interval, and one of these bounds is reached; it is 60 s only when one of them asks for that |
| KcpTimers.RoundTripMeasured | components/kcp/ikcp.c:788-795 | the sample is the time since the flush that sent the segment, whenever the receiver flushes |
| KcpTimers.FirstWait | components/kcp/ikcp.c:1044-1056 | a segment first sent waits for the timeout, and an eighth more unless nodelay |
| KcpTimers.TimeoutWait | components/kcp/ikcp.c:1058-1071 | after a timeout the wait grows by the larger of itself and the timeout; with nodelay 1 by half of itself, with 2 by half of the timeout |
| KcpTimers.SkippedWait | components/kcp/ikcp.c:1072-1081 | a segment skipped often enough, and not sent too often for that, goes out at once with its wait unchanged and a new count |
| KcpTimers.FlushSends | components/kcp/ikcp.c:1049-1107 | exactly the segments never sent, timed out or skipped enough are sent, once each and in order, with the time, una and window of this flush |
| KcpTimers.LinkCounts | components/kcp/ikcp.c:1058-1106 | the resend counter counts the timeouts, and the link is dead exactly when it was or a segment went out for the dead_link-th time or later |
| KcpTimers.FlushAnnounces | components/kcp/ikcp.c:931-1088 | every packet of a flush shows rcv_nxt and how many segments the receive queue still takes; it asks for the peer's window exactly when a probe is due, tells its own exactly when asked, and neither again |
| KcpTimers.InputAsked | components/kcp/ikcp.c:848-852 | the window is to be told exactly when a packet of the datagram asked for it, or that was wanted before |
| KcpTimers.ProbeBackOff | components/kcp/ikcp.c:971-994 | a closed window is asked about after 7 s, then after waits that grow by half up to 120 s; an open one ends that |
| KcpControl.GrowthBounded | components/kcp/ikcp.c:875-897 | the congestion window never shrinks on progress, is never lifted above the peer's window, grows by exactly one in slow start, and the byte count stays below one segment more than the window |
| KcpControl.AlwaysLevel | components/kcp/ikcp.c:875-897 | in every run with an mtu up to 65535 and fastresend up to 32768 that byte count holds, without wrap, and no input makes the window smaller or larger than the peer's |
| KcpCongestion.FlushReacts | components/kcp/ikcp.c:1116-1137 | a timeout leaves a window of one segment and a threshold of half the used window; without one, a segment sent for its skips sets the threshold to half of what is in flight and the window that far beyond it as skips were asked for; otherwise nothing changes but a window of 0 |
| KcpCongestion.FlushLetsOut | components/kcp/ikcp.c:1016-1042 | exactly as many queued segments as the least of snd_wnd, the peer's window and the congestion window have room for get the next numbers, in order; what was in flight stays |
| KcpCongestion.AvoidanceExact | components/kcp/ikcp.c:881-895 | congestion avoidance: the byte count grows by mss*mss/incr + mss/16, and the window becomes the number of segments it fills once it covers one more |
| KcpCongestion.InputGrows | components/kcp/ikcp.c:749-900 | the peer's window is that of the last packet, and the congestion window grows, once, exactly when a datagram without error moves snd_una |
| KcpCongestion.FirstFlight | components/kcp/ikcp.c:234-295 | what a new control block sends first: nothing but an opened window with congestion control; without it as much as snd_wnd and 128 allow, to be repeated after 200 ms, or 225 |
| KcpControl.DueAgain | components/kcp/ikcp.c:1054-1087 | a segment that a flush has dealt with is due again at the same moment exactly when it was sent for its timeout with enough skips, which a timeout does not clear |
| KcpUnbounded.InputRefines | components/kcp/ikcp.c:749-900 | a datagram whose numbers are less than 2^31 from what they are compared with does to both queues, the skip counters and the acknowledgement list what it does with unbounded sequence numbers, across any number of wraps, and the congestion window grows exactly when the unbounded una rises |
| KcpUnbounded.PacketRefines | components/kcp/ikcp.c:788-869 | each of its packets decides as with unbounded numbers, the choice of maxack included |
| KcpUnbounded.FastackRefines | components/kcp/ikcp.c:609-631 | exactly the segments in flight below maxack count a skip, and only when maxack is in flight |
| KcpUnbounded.FinishRefines | components/kcp/ikcp.c:871-897 | snd_una > prev_una is decided as for unbounded numbers |
| KcpUnbounded.FlushRefines | components/kcp/ikcp.c:1016-1107 | so do the window fill of ikcp_flush and the reset of skip counters by fast retransmission |
| KcpUnbounded.DataRefines | components/kcp/ikcp.c:683-732 | so do the window test and the insertion of ikcp_parse_data, for every receive window below 2^31 |
| KcpUnbounded.AckRefines | components/kcp/ikcp.c:571-591 | so does the acknowledgement search |
| KcpMessages.SendCuts | components/kcp/ikcp.c:507-534 | in message mode exactly the messages of at most 127*mss bytes are accepted, cut into fragments counting down to 0, and any other is refused without a trace |
| KcpMessages.CutRebuilds | components/kcp/ikcp.c:384-411 | joining the fragments of a message, of which there are no more than its bytes need, gives back exactly its bytes |
| KcpStream.StreamSend | components/kcp/ikcp.c:477-534 | in stream mode a send is accepted exactly when what the tail does not take is at most 127*mss bytes; the queue then holds the bytes from before and the new ones, in order, in segments of which all but the last are full; a refused send has still put bytes into the tail |
| KcpMessages.RecvAnswers | components/kcp/ikcp.c:358-435 | ikcp_recv: -1 for an empty queue, -2 for a message not yet whole, -3 for one too long, each changing nothing, otherwise its length and bytes; a queue that was full and now has room is announced |
| KcpMessages.QueueDeliversNext | components/kcp/ikcp.c:441-463 | a receive queue that continues the stream yields exactly the next message; with 128 segments or more it always yields one |
| KcpFlush.FlushRoundTrip | components/kcp/ikcp.c:956-1114 | every datagram of a flush has at most mtu bytes and ikcp_input's loop over them recovers acknowledgements, probes and due segments, in order |
| KcpFlush.AcksSentOnce | components/kcp/ikcp.c:956-969 | every pushed acknowledgement is sent exactly once |
| KcpFlush.InputAnswers | components/kcp/ikcp.c:757-786 | what ikcp_input answers to good packets with anything behind them |
| KcpNetwork.FlushHonest | components/kcp/ikcp.c:956-1114 | what a flush says of una, acknowledged numbers and fragments is true of its sender |
| KcpNetwork.HonestLater | components/kcp/ikcp.c:683-732 | and it stays true as both ends go on |
| KcpNetwork.DataHolds | components/kcp/ikcp.c:683-732 | the receiver holds, at every number, exactly the fragment that the sender cut for it |
| KcpNetwork.AckKeepsFlow | components/kcp/ikcp.c:571-607 | an acknowledgement takes a segment from the sender only when the receiver has it |
| KcpDelivery.Delivery | components/kcp/ikcp.c:358-537 | in every run of two peers over a network that drops, duplicates and reorders, the received messages are a prefix, in order and whole, of those sent |
| KcpDelivery.DroppedOnlyWhenStored | components/kcp/ikcp.c:571-607 | a segment is missing from the sender's buffer only if the receiver has stored it |
| KcpDelivery.FullQueueDelivers | components/kcp/ikcp.c:1278-1280 | a full receive queue always has a deliverable message at its head, for rcv_wnd of 128 or more |
| KcpDelivery.DrainedMeansAll | components/kcp/ikcp.c:1285-1289 | when ikcp_waitsnd is 0 and ikcp_recv finds nothing more, all messages sent have been received |
| KcpDelivery.HeardSame | components/kcp/ikcp.c:830-848 | a data number between 2^31 - rcv_wnd and 2^31 old is dropped by the window test: of its packet only una and window count |
| KcpProgress.NoDeadEnd | components/kcp/ikcp.c:931-1138 | from every state that a run reaches some further run without a new message, with datagrams lost, repeated and reordered on the way, leaves both ends with empty queues and everything received |
| KcpProgress.OpensWindow | components/kcp/ikcp.c:971-1015 | a sender that was told of no room asks at the next probe, is told, and may send again |
| KcpProgress.HeadArrives | components/kcp/ikcp.c:1017-1114 | with a window open, a flush at the moment the oldest segment is due gets it stored at the receiver |
| KcpProgress.Round | components/kcp/ikcp.c:931-1138 | as long as something is not acknowledged some further run moves snd_una on |
| KcpClosedWindow.DeadEnd | components/kcp/ikcp.c:906-924 | with a receive window that is a multiple of 2^16 there is, whatever the other settings, a run after which no further run gets a waiting message across |
| KcpClosedWindow.RunWedged | components/kcp/ikcp.c:906-924 | the invariant of that state: the sender waits with an empty snd_buf, and every datagram the receiver ever sent announces 0 |
| Iqueue.Init | components/kcp/ikcp.h:151-152 | an empty ring of one head |
| Iqueue.Add | components/kcp/ikcp.h:165-167 | the node stands right behind the given one; all other nodes keep their order |
| Iqueue.AddTail | components/kcp/ikcp.h:169-171 | the node stands last in the queue |
| Iqueue.Del | components/kcp/ikcp.h:175-178 | exactly the given node leaves the ring, and its own pointers are cleared |
| Iqueue.IsEmpty | components/kcp/ikcp.h:183-183 | a head that points to itself, and only that, is an empty queue |
| Iqueue.Foreach | components/kcp/ikcp.h:201-202 | the loop meets every node once, in queue order, and ends at the head |
| DapEngine.RetryHidesWaits | components/DAP/cmsis-dap/source/DAP.c:772-774 | the retry loop against a target that ignores what it answers WAIT to ends in the same state, acknowledgement and word as without WAITs |
| DapEngine.WordBytes | components/DAP/cmsis-dap/source/DAP.c:786-789 | words stand in packet and response with the least significant byte first |
| DapEngine.RequestBits | components/DAP/cmsis-dap/include/DAP.h:152-158 | the bits of a request byte |
| DapEngine.MatchAnswers | components/DAP/cmsis-dap/source/DAP.c:821-836 | reading until the value matches: with successive words w0, w1, .. the request succeeds exactly when some i <= match_retry has wi & mask == value, and the reads stop at the first; otherwise match_retry + 1 are made and the value byte is 0x11 |
| DapEngine.MatchFails | components/DAP/cmsis-dap/source/DAP.c:821-836 | a match whose first read is refused reports that acknowledgement, and a mismatch too unless the word at hand happens to match |
| SwdTransfer.TransferUses | components/DAP/cmsis-dap/source/DAP.c:763-981 | whatever the target answers, n requests make at most (n*(match_retry+3)+1)*(retry_count+1) wire transfers |
| SwdTransfer.WaitsChangeNothing | components/DAP/cmsis-dap/source/DAP.c:763-981 | with at most retry_count WAITs in a row the response, the match mask and the target's state are those of a run without WAIT |
| SwdPipeline.PipelineIsNaive | components/DAP/cmsis-dap/source/DAP.c:763-981 | posted AP reads: the response equals that of an executor that follows every AP read by a read of RDBUFF, and the target ends in the same state |
| SwdPipeline.PipelineReadsRegisters | components/DAP/cmsis-dap/source/DAP.c:763-981 | the response is the count, OK, and what the registers answer to the requests, in order |
| SwdPipeline.ResponseLength | components/DAP/cmsis-dap/source/DAP.c:983-988 | the response has 2 bytes, 4 per read and 4 per timestamped access |
| SwdTransfer.LengthRight | components/DAP/cmsis-dap/source/DAP.c:763-988 | the number of request bytes returned is that of the packet exactly when no request failed and no abort came before the end: a break leaves one request too many to be skipped |
| SwdTransfer.FaultMisplaces | components/DAP/cmsis-dap/source/DAP.c:944-956 | a concrete packet of three bytes for which eight are returned |
| SwdMatch.MixedListAnswers | components/DAP/cmsis-dap/source/DAP.c:763-988 | for lists that mix plain requests and matches, against the registers behind the port: when each match finds its value the response is the count, OK and what the plain requests are answered; otherwise the list ends at the first that does not, its count excludes that one and the value byte is 0x11. The port ends as after one read for each word up to the first that matches, or match_retry + 1, and one more first for an AP register |
| SwdTransfer.TransferReports | components/DAP/cmsis-dap/source/DAP.c:763-986 | whatever the target answers: no access follows one not answered OK in the end, and the value byte is the answer to the last access, possibly with the mismatch bit |
| SwdTransfer.RequestsCounted | components/DAP/cmsis-dap/source/DAP.c:985-985 | the count is the number of requests before the one that failed or the abort |
| SwdTransfer.LastWriteChecked | components/DAP/cmsis-dap/source/DAP.c:974-980 | a list that ends with a register write ends with a read of RDBUFF, whose answer is reported |
| SwdTransfer.LastReadEnds | components/DAP/cmsis-dap/source/DAP.c:958-981 | a list that ends with a read answered at once ends there |
| SwdTransfer.AbortStops | components/DAP/cmsis-dap/source/DAP.c:754-979 | whatever is left of the list and the retries, at most three transfers are made after the one during which DAP_TransferAbort came |
| DapCommand.Probe.SwdTransfer | components/DAP/cmsis-dap/source/DAP.c:729-988 | the loop over the request bytes computes the specified command, the response bytes and the returned number of request bytes included |
| DapCommand.Probe.SwdReadPosted | components/DAP/cmsis-dap/source/DAP.c:767-802 | what becomes of a posted AP read before the next request |
| DapCommand.Probe.TransferRetry | components/DAP/cmsis-dap/source/DAP.c:772-774 | the retry loop, with the abort flag |
| DapCommand.Probe.MatchValue | components/DAP/cmsis-dap/source/DAP.c:821-833 | the value-match loop, with mask, retries and the mismatch bit |
| DapCommand.Probe.SwdWrite | components/DAP/cmsis-dap/source/DAP.c:889-936 | draining a posted read, then a match mask or a write |
| JtagTransfer.TransferRightIr | components/DAP/cmsis-dap/source/DAP.c:998-1263 | whatever acknowledgements come back, every transfer runs with the loaded IR that matches its request's APnDP bit |
| JtagTransfer.WaitsChangeNothing | components/DAP/cmsis-dap/source/DAP.c:998-1263 | with at most retry_count WAITs in a row the response, the match mask and the state of the chain are those of a run without WAIT |
| JtagPipeline.PipelineIsNaive | components/DAP/cmsis-dap/source/DAP.c:998-1263 | with all-OK acknowledgements the response equals that of the executor that fetches every read at once, and every request is counted |
| JtagPipeline.PipelineReadsRegisters | components/DAP/cmsis-dap/source/DAP.c:998-1263 | the response is the count, OK, and the words the registers answer, in order |
| JtagTransfer.LengthRight | components/DAP/cmsis-dap/source/DAP.c:1023-1263 | the number of request bytes returned is that of the packet exactly when the device index is known and, unless the list is empty, no request failed and no abort came before the end |
| JtagMatch.MixedListAnswers | components/DAP/cmsis-dap/source/DAP.c:1037-1263 | the same over JTAG, where every match posts one read first |
| JtagTransfer.TransferReports | components/DAP/cmsis-dap/source/DAP.c:1037-1261 | the value byte is the answer to the last access, as over SWD |
| JtagTransfer.RequestsCounted | components/DAP/cmsis-dap/source/DAP.c:1260-1260 | the count is the number of requests before the one that failed or the abort |
| JtagTransfer.LastAccessChecked | components/DAP/cmsis-dap/source/DAP.c:1229-1256 | every list that ran through ends with a read of RDBUFF, whose answer is reported |
| JtagTransfer.AbortStops | components/DAP/cmsis-dap/source/DAP.c:1024-1254 | at most three transfers are made after the one during which DAP_TransferAbort came |
| DapCommand.Probe.JtagTransfer | components/DAP/cmsis-dap/source/DAP.c:998-1263 | the loop computes the specified command and the number of request bytes; an unknown device index touches nothing |
| DapCommand.Probe.JtagRead | components/DAP/cmsis-dap/source/DAP.c:1041-1148 | posted reads, IR changes and value matches of one read request |
| DapCommand.Probe.JtagWrite | components/DAP/cmsis-dap/source/DAP.c:1150-1206 | draining, IR change and the write of one write request |
| SwdBlock.ReadBlockReadsRegisters | components/DAP/cmsis-dap/source/DAP.c:1364-1396 | a block of n reads returns the count, OK and what n single requests are answered by the registers, in order |
| SwdBlock.BlockIsList | components/DAP/cmsis-dap/source/DAP.c:1364-1396 | its words are those DAP_SWD_Transfer returns for a list of n such reads |
| SwdBlock.WriteBlockWritesRegisters | components/DAP/cmsis-dap/source/DAP.c:1397-1421 | a block of n writes leaves the port as n single writes do |
| SwdBlock.BlockUses | components/DAP/cmsis-dap/source/DAP.c:1364-1421 | whatever is answered, n words take at most (n+1)*(retry_count+1) transfers |
| SwdBlock.BlockReports | components/DAP/cmsis-dap/source/DAP.c:1364-1421 | the value byte of a block is the answer to its last access, and nothing follows one not answered OK in the end |
| SwdBlock.BlockCounted | components/DAP/cmsis-dap/source/DAP.c:1364-1429 | the count is the number of words read or written, with four bytes for each that is read |
| JtagBlock.ReadBlockReadsRegisters | components/DAP/cmsis-dap/source/DAP.c:1470-1506 | the same for JTAG, where every read is posted |
| JtagBlock.BlockIsList | components/DAP/cmsis-dap/source/DAP.c:1470-1506 | its words are those of DAP_JTAG_Transfer for a list of the same reads |
| JtagBlock.WriteBlockWritesRegisters | components/DAP/cmsis-dap/source/DAP.c:1507-1534 | a JTAG block of writes leaves the registers as single writes do |
| JtagBlock.BlockRightIr | components/DAP/cmsis-dap/source/DAP.c:1470-1534 | every transfer of a block runs with the instruction its request asks for, whatever is acknowledged |
| JtagBlock.BlockReports | components/DAP/cmsis-dap/source/DAP.c:1470-1534 | the value byte of a JTAG block is the answer to its last access |
| JtagBlock.BlockCounted | components/DAP/cmsis-dap/source/DAP.c:1470-1542 | the count is the number of words read or written, with four bytes for each that is read |
| DapCommand.Probe.SwdTransferBlock | components/DAP/cmsis-dap/source/DAP.c:1339-1429 | the loops compute the specified block command and its response bytes |
| DapCommand.Probe.JtagTransferBlock | components/DAP/cmsis-dap/source/DAP.c:1438-1542 | likewise for JTAG, with the device index check |
| JtagChain.CapturedLayout | components/DAP/cmsis-dap/source/JTAG_DP.c:166-174 | with every other device bypassed the data register is index + own + (count-index-1) bits, the own answer at position index |
| JtagChain.UpdateSelects | components/DAP/cmsis-dap/source/JTAG_DP.c:115-152 | shifting ones, the instruction, ones leaves the indexed device with the instruction and every other with all ones |
| JtagDriver.Port.Configure | components/DAP/cmsis-dap/source/DAP.c:632-652 | ir_before and ir_after are the bits of the devices on either side, for every device |
| JtagDriver.Port.SetIr | components/DAP/cmsis-dap/source/JTAG_DP.c:115-152 | from Run-Test/Idle, clock by clock: the indexed device gets the low bits of ir, every other one BYPASS, and the chain is back in Run-Test/Idle after 6 clocks and one for each instruction bit |
| JtagDriver.AccessIsNotBypass | components/DAP/cmsis-dap/source/JTAG_DP.c:115-152 | DPACC and APACC do not select BYPASS in any instruction register of three bits or more |
| JtagDriver.CodesAgree | components/DAP/cmsis-dap/source/DAP.c:1041-1063 | the instructions that are scanned are those the transfer commands ask for |
| JtagDriver.AckMeans | components/DAP/cmsis-dap/source/JTAG_DP.c:176-181 | 010 is OK and 001 WAIT, least significant bit first, in the codes of SWD |
| JtagDriver.Port.Transfer | components/DAP/cmsis-dap/source/JTAG_DP.c:159-251 | an OK access shifts index + 35 + (count-index-1) bits, count being the configured number of devices, and moves the device's own 35; any other ends after the acknowledgement; every path ends in Run-Test/Idle with the instructions unchanged, after exactly count + 39 clocks or index + 9, and the idle cycles |
| JtagDriver.Port.Access | components/DAP/cmsis-dap/source/JTAG_DP.c:115-251 | DAP_JTAG_Configure, JTAG_IR and JTAG_Transfer in a row: on a chain that is as configured the indexed device is accessed, whatever instructions were loaded before |
| JtagDriver.Port.ReadIdCode | components/DAP/cmsis-dap/source/JTAG_DP.c:267-300 | the 32 bits of the indexed device, whatever stands before it, in index + 37 clocks |
| JtagDriver.Port.WriteAbort | components/DAP/cmsis-dap/source/JTAG_DP.c:303-345 | a write of the word to address 0 reaches the indexed device whole |
| Parity.FoldedParity | components/DAP/cmsis-dap/include/dap_utility.h:19-26 | three folds and the table word give the sum of all 32 bits modulo 2 |
| Parity.ByteTableIsParity | components/DAP/cmsis-dap/source/dap_utility.c:3-10 | the table the recursive macros build is the parity of its index |
| SwdWire.Port.WriteHeader | components/DAP/cmsis-dap/source/SW_DP.c:383-400 | the eight header bits, the parity bit being the low bit of a sum of shifted requests |
| SwdWire.Port.ReadWord | components/DAP/cmsis-dap/source/SW_DP.c:419-429 | 32 data bits, least significant first, and their parity |
| SwdWire.Port.WriteWord | components/DAP/cmsis-dap/source/SW_DP.c:444-452 | 32 data bits and the parity bit |
| SwdWire.Port.TransferGpio | components/DAP/cmsis-dap/source/SW_DP.c:375-499 | for every turnaround, data phase and idle setting and every acknowledgement: the whole transaction clock by clock, the acknowledgement and the word |
| SwdWire.GpioSlots | components/DAP/cmsis-dap/source/SW_DP.c:375-499 | for every turnaround T, data_phase and idle count, in numbers: after the eight driven bits of the header a read answered OK releases the line for exactly 2T + 36 clocks, a write for 2T + 3 before its 33 driven bits, then the idle clocks are low; a refused access with and without its 33 dummy clocks; a protocol error releases it to the end |
| SwdWire.GpioSamples | components/DAP/cmsis-dap/source/SW_DP.c:402-431 | and when acknowledgement, word and parity are sampled, and what they say |
| SwdWire.Port.SendHeader | components/DAP/cmsis-dap/source/spi_op.c:161-189 | header out, turnaround and acknowledgement in, in one run of the peripheral |
| SwdWire.Port.ReadData | components/DAP/cmsis-dap/source/spi_op.c:232-258 | 34 clocks in: data, parity, turnaround |
| SwdWire.Port.WriteData | components/DAP/cmsis-dap/source/spi_op.c:267-279 | 33 clocks out: data, parity |
| SwdWire.Port.TransferSpi | components/DAP/cmsis-dap/source/SW_DP.c:207-371 | for every acknowledgement, up to 255 idle cycles and any contents of the peripheral's buffer: the same acknowledgement and word as the GPIO form, and its own clocks |
| SwdWire.RequestByteIsHeader | components/DAP/cmsis-dap/source/SW_DP.c:218-224 | the request byte, with its table parity, holds the header bits of the GPIO form |
| SwdWire.SameTransaction | components/DAP/cmsis-dap/source/SW_DP.c:207-371 | with turnaround 1, data_phase 0 and idle_cycles 0 both forms take the same number of clocks with the same bits in the same slots; only the last slot of a refused read is driven by SPI and released by GPIO |
| SwdWire.IdleLowExactly | components/DAP/cmsis-dap/source/spi_op.c:303-313 | the 33rd idle clock after a write drives the parity of the word once more: all idle clocks are low exactly when there are at most 32, or the parity is even and the words behind show no one |
| SwdWire.IdleCyclesDiffer | components/DAP/cmsis-dap/source/SW_DP.c:330-334 | with idle cycles the clock counts of both forms agree exactly for writes or zero idle cycles, and the clocks themselves exactly when moreover all idle clocks are low |
| SwdWire.ErrorClocksDiffer | components/DAP/cmsis-dap/source/SW_DP.c:308-367 | after a protocol error GPIO releases the line for 34 clocks, while SPI drives ones, one clock less for a read and one more for a write |
| SwdWire.BothForms | components/DAP/cmsis-dap/source/SW_DP.c:207-499 | on the same line, with turnaround 1, data_phase 0 and idle_cycles 0, both forms return the same acknowledgement and word, with the same slots up to the turnaround of a refused read |
| WsMask.FastMask | components/dap_proxy/websocket_server.c:455-506 | for every length, alignment and mask: exactly the given bytes are combined with mask[i % 4], in place, words only at aligned addresses |
| WsMask.NewMaskTurns | components/dap_proxy/websocket_server.c:508-519 | the new mask is the old one turned by the length of the piece |
| WsMask.PiecewiseIsWhole | components/dap_proxy/websocket_server.c:539-546 | unmasking a payload in arbitrary pieces with the turned masks is unmasking it whole |
| WsMask.MaskedTwice | components/dap_proxy/websocket_server.c:455-506 | masking is its own inverse (section 5.3 of RFC 6455) |
| WsParser.ReceiveStream | components/dap_proxy/websocket_server.c:643-680 | a stream of frames, cut in any way into what recv returns, makes a new parser hand over exactly the unmasked payloads of the binary frames, in order |
| WsParser.Parser.ReceiveAll | components/dap_proxy/websocket_server.c:643-680 | from any state between calls: output, failure and final state depend on the bytes received, not on how they were cut |
| WsFrames.StreamRun | components/dap_proxy/websocket_server.c:530-641 | a stream of frames leaves the parser between frames, with the unmasked payloads of the binary frames handed over in order and whole |
| WsFrames.HeaderMeans | components/dap_proxy/websocket_server.c:207-317 | any header by its fields, with any of the three length forms: refused exactly for a reserved bit, an unknown opcode or a 64-bit length with its top bit set; otherwise as many payload bytes follow as the length says, big-endian, modulo 2^32, under the key or none |
| WsFrames.CloseEndsStream | components/dap_proxy/websocket_server.c:600-606 | a close frame ends the stream: what came before it was handed over, nothing after it is |
| WsFrames.DeliversMessages | components/dap_proxy/websocket_server.c:228-249 | the output is what section 5.4 of RFC 6455 asks for exactly when no non-empty continuation of a binary message comes after a control frame within it |
| WsFrames.PingLosesFragment | components/dap_proxy/websocket_server.c:228-249 | a concrete stream: a ping between two fragments makes the parser lose the second |
| WsParser.Parser.ProcessHeader | components/dap_proxy/websocket_server.c:207-317 | from any state of the header, with any number of bytes: the complete header's opcode, length and key, the failure, or more bytes needed |
| WsParser.Parser.ReadLength | components/dap_proxy/websocket_server.c:264-299 | two or eight length bytes, big-endian, the most significant bit refused, the rest modulo 2^32 |
| WsParser.Parser.ProcessPayload | components/dap_proxy/websocket_server.c:530-641 | the bytes of the payload are unmasked and handed over, what follows starts a new frame at the front of the buffer, and another pass follows only if bytes were used up |
| WsParser.Parser.Process | components/dap_proxy/websocket_server.c:643-680 | one recv: the parser's state becomes what the automaton makes of the old one and the chunk, it fails exactly when that fails, at most 13 bytes stay buffered, and the loop ends |
| WsParser.Parser.AtRest | components/dap_proxy/websocket_server.c:643-680 | between calls nothing is owed: the output so far is what was handed over |
| UsbipPipeline.RepliesAreResults | components/dap_proxy/DAP_handle.c:168-236 | in every interleaving the data replies are, in order, the DAP results of the commands in order; dap_req_num, the notifications and dap_respond count what they stand for |
| UsbipPipeline.ResultAt | components/dap_proxy/DAP_handle.c:213-219 | the k-th response is that of the probe after the commands before; a command marked for queueing is executed at once |
| UsbipPipeline.InAnswered | components/dap_proxy/DAP_handle.c:238-276 | an IN request gets the empty reply exactly when every command was answered, and otherwise waits for data |
| UsbipPipeline.CountedKept | components/dap_proxy/usbip_server.c:211-219 | dap_req_num equals the commands in the IN ring, in hand, in the OUT ring and on their way, after every step |
| UsbipPipeline.NotifiedKept | components/dap_proxy/DAP_handle.c:188-206 | one notification per command in the IN ring: DAP_Thread never finds it empty |
| UsbipPipeline.RespondingKept | components/dap_proxy/DAP_handle.c:227-233 | dap_respond counts the responses in the OUT ring, one late at most |
| UsbipPipeline.OrderKept | components/dap_proxy/DAP_handle.c:196-233 | no step loses, repeats, reorders or changes a command or a response |
| UsbipPipeline.OnlyDeadlock | components/dap_proxy/DAP_handle.c:95-108 | at most 22 commands are ever outstanding, and both tasks are stuck exactly when there are 22: both rings are full and each task waits for the other |
| UsbipPipeline.BackAtTheSocket | components/dap_proxy/DAP_handle.c:238-275 | with fewer than 22 the TCP task is back at its socket after a bounded number of steps, however the tasks are scheduled |
| UsbipPipeline.FloodBlocks | components/dap_proxy/DAP_handle.c:95-108 | a run that reaches that deadlock: 22 commands without an IN request |
| MemoryPool.Pool.Init | components/memory_pool/memory_pool.c:19-36 | the queue holds each of the seven buffers once; a second call changes nothing |
| RequestRunner.EveryRun | components/memory_pool/memory_pool.c:38-54 | in every interleaving of handlers, long-run task, send-out task and httpd work each buffer is in exactly one place, so that the free and the held ones are always seven: the pool is empty exactly when seven are held |
| RequestRunner.FlowKeeps | project_components/web_server/uri_modules/uri_ws.c:90-229 | on every path of the handlers and callbacks a parsed input is deleted once and an asynchronous request completed once |
| RequestRunner.HandOverKeeps | project_components/request_runner/request_runner.c:22-48 | a push that succeeds hands the buffer over; one that fails leaves it with its owner |
| RequestRunner.PutHasRoom | components/memory_pool/memory_pool.c:46-54 | the assertion of memory_pool_put never fires while a holder puts |
| RequestRunner.Server.Begin | components/memory_pool/memory_pool.c:38-44 | a handler takes the head of the pool's queue, unless seven buffers are held, for which the assertion fails; every buffer stays in one place |
| RequestRunner.Server.Finish | components/memory_pool/memory_pool.c:46-54 | whoever puts its buffer back finds room in the pool's queue, so that the assertion holds |
| RequestRunner.Server.Serve | components/memory_pool/memory_pool.c:38-54 | a whole run over the pool itself: the assertion of memory_pool_put never fails, that of memory_pool_get fails at the first request for which all seven buffers are held |
| RequestRunner.PoolRunsEmpty | components/memory_pool/memory_pool.c:38-44 | that happens although each task does one thing at a time: a run with one buffer in a callback, four in the send-out queue and two in the long-run queue |
| RequestRunner.AllComeBack | project_components/web_server/uri_modules/uri_api.c:26-140 | once no more requests arrive, after a bounded number of steps every buffer is back in the pool, once, with no parsed input and no open request left |
| UartRing.Uart.Transmit | components/DAP/cmsis-dap/source/UART.c:279-295 | the longest block from the first unsent byte that lies inside the buffer |
| UartRing.Uart.SendComplete | components/DAP/cmsis-dap/source/UART.c:97-102 | the completed block is done and the next one begins |
| UartRing.Uart.ShiftOut | components/DAP/cmsis-dap/source/UART.c:279-295 | a byte that leaves is the next accepted one, as it stands in the ring |
| UartCounts.FitsExactly | components/DAP/cmsis-dap/source/UART.c:609-624 | whatever interrupts come between the statements of UART_Transfer, what it admits finds room, exactly when before the call the transmitter is idle, or at most a buffer is in blocks not yet completed, or all it could admit fits once the running block is done |
| UartCounts.SafeRunFits | components/DAP/cmsis-dap/source/UART.c:609-638 | a run in which every command meets that condition never overruns the ring |
| UartCounts.UnsafeReachable | components/DAP/cmsis-dap/source/UART.c:617-624 | a run from reset after which three bytes are admitted where one fits |
| UartCounts.QuietTransfer | components/DAP/cmsis-dap/source/UART.c:609-638 | undisturbed, exactly the room there is gets used, all that was shifted out included |
| UartRing.Uart.Transfer | components/DAP/cmsis-dap/source/UART.c:609-638 | with interrupts between its statements and across the wrap of the 32-bit indices: what is admitted follows from what was read and the counts are those of UartCounts; the bytes follow those accepted before, and when they fit no unsent byte is overwritten |
| UartRing.Uart.Overrun | components/DAP/cmsis-dap/source/UART.c:617-636 | from every state that does not meet the condition: with the completion interrupt between the first two readings UART_Transfer accepts too much, and the next byte to leave is a new one |
| UartRing.Uart.StaleIndex | components/DAP/cmsis-dap/source/UART.c:617-636 | and that byte goes out in place of the one accepted there |
| UartRing.Uart.Flush | components/DAP/cmsis-dap/source/UART.c:262-268 | an empty ring that counts from zero |

## Left out

- KCP structures: the fields are grouped into records and the queues are sequences (the linked list is modelled on its own in `Iqueue`); the flush scratch buffer is a byte sequence.
- Kcp.ControlBlock.Send: does not model a NULL buffer, and the number of queued segments is unbounded, where the source counts it in 32 bits.
- Kcp.ControlBlock.AckPush: the doubling of the array is not cut off at 2^32.
- Kcp.ControlBlock.UpdateAck: where C leaves signed overflow undefined, two's complement is meant.
- KcpDelivery.Delivery: is stated for message mode, rcv_wnd of 128 or more and below 2^31 - 2^16, mtu and windows fixed at set-up, and datagrams in which no number is more than half a circle (2^31) old; peers that forge una or frg are covered by the queue invariant only.
- KcpControl.SmoothedBetween: assumes that 7 * srtt plus the sample stays below 2^31; beyond that the source's signed sum overflows.
- KcpControl.AlwaysLevel: beyond an mtu of 65535, or with fastresend beyond 32768, the source's 32-bit products can wrap.
- KcpProgress.NoDeadEnd: says that such a run exists, not that a fair network brings it about; ikcp_update may be called at any point of the 32-bit clock. Receive windows of which the 16-bit field shows 1 to 127 are left open.
- KcpControl.DueAgain: assumes that the new resend time is less than half a circle ahead.
- KCP memory failure, logging, hooks, writelog, ikcp_setmtu, ikcp_nodelay and changing windows in mid-run.
- DapCommand.Probe.SwdTransfer: bytes beyond the packet read as 0, and the uninitialised data word is 0.
- DapCommand.Probe.JtagTransfer: as for SWD; the abort flag is noticed only while transfers run.
- JtagPipeline.PipelineIsNaive: excludes value-match reads, which are the subject of `JtagMatch`; JTAG pin delays and the timestamp source are foreign.
- SwdMatch.MixedListAnswers: is stated for a target that acknowledges OK; for any other answer there are `SwdTransfer.TransferReports`, `DapEngine.MatchFails` and `SwdTransfer.WaitsChangeNothing`.
- KcpTimers.TimeoutExact: assumes values of which no 32-bit sum of the estimator wraps.
- SwdWire.Port.TransferSpi: DAP_SPI_ReadBits, DAP_SPI_WriteBits and the ESP32C3 and ESP32S3 variants are left out.
- SwdWire.Port.TransferGpio: adds up bits where the source adds whole shifted words; only the lowest bit of the sum is used. The timestamp is left out.
- WsFrames.StreamRun: is stated for payloads shorter than 2^32; a longer declared length is taken modulo 2^32.
- WsParser.Parser.Process: handshake, text frames, what a ping sends back and the execution of the binary payload are left out; the overlapping memcpy is a move; a failed parser is not used again.
- UsbipPipeline.RepliesAreResults: UNLINK, restart, reconnection and the control endpoint are left out; the rings are queues of whole packets.
- RequestRunner.EveryRun: any number of handlers and tasks of each kind may run, which covers the one of each that there is; the SSDP page, which does not return its buffer, the heartbeat and the contents of messages are left out.
- UartRing.Uart.Transfer: the receive half, enabling and disabling the transmitter and the status command are left out.
- SWO, the wifi manager, SSDP, mDNS, storage, URI matching and USB descriptors would add only single-branch facts.
