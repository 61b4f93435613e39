# Arwill verification

Arwill is a small kernel written in C. This project models the parts of it that keep
state through loops, modular arithmetic and in-place tables, and proves what they are
for. `dafny verify dfyconfig.toml` checks the whole project.

Most parts come in two layers. A module of values and functions says what each operation
does and carries the theorems over whole runs; a module of classes and methods follows
the C code's own form (rings, linked headers, shifted tables, frame buffers, cursor loops)
and proves each method equal to its function. The theorems therefore hold of the code-shaped
layer as well.

| part | functions and theorems | code-shaped layer |
|---|---|---|
| TCP | `TcpListener`, `TcpConnection`, `TcpSending`, `TcpSafety`, `TcpArrival`, `TcpDelivery`, `TcpHandshake`, `TcpTimers`, `TcpSilence`, `TcpClosing`, `TcpEndToEnd`, `TcpPeerClosed`, `TcpMeeting`, `TcpForeignFrames`, `TcpStaleFrames`, `TcpProgress`, `TcpRecovery`, `TcpWindows`, `TcpFlow`, `TcpEstimator`, `TcpConversation`, `TcpGoodbye` | `Rings`, `TcpEndpoint` |
| frames and checksums | `Checksums`, `FrameCodec`, `FrameLayout`, `FrameDamage`, `TcpOptions` | `FrameBuffers` |
| ARFS | `ArfsManifest`, `ArfsRemount`, `ArfsTruncation`, `ArfsVolume`, `ArfsExtents`, `ArfsNamespace`, `ArfsDirectories`, `ArfsStatistics` | `ArfsStore` |
| kernel heap | `HeapBlocks`, `HeapRuns`, `HeapGaps` | `KernelHeap` |
| user tasks | `AwpTasks`, `AwpFates` | `AwpRuntime` |
| endpoint ownership | `EndpointTable`, `EndpointOwnership`, `EndpointReplies` | `AwpNetwork` |
| process dispatch | `ProcessDispatch`, `ProcessFates` | |
| configuration | `ConfigText` | `ConfigStore` |
| DNS | `DnsCodec`, `DnsSoundness` | `DnsBuffers` |
| shared | `Words`, `Sequences`, `Wrappers` | |

Safety is paired with progress, so that a part that does nothing would not pass: `MessageIsRead`
(connect and transfer a message of any length), `ConnectAndFill` (through shut windows),
`LossyTransferDeliversAll`, `GoodbyeEnds`, `AllocateIffGap`, `MakeSucceedsIff`, `SpawnedRuns`,
`DispatchedWithinFour`, `PassServes`, `WriteSucceedsIff`, `AllocateKeeps`, `OpenKeeps`.

How the outside world enters the model:

- Clocks are parameters of each poll. The maintenance half of a poll uses one reading and
  the handling of a frame another, at most `drift` ms later; with `drift` 0 the bound of
  `BoundedClose` is exactly 3000 ms. The round-trip results assume a clock below 2^60 ms.
- The network device is a function that says of each offered frame whether it is taken.
  `FromSynToEnd` and `EndToEnd` let every frame that was put on the wire for the connection,
  from its first SYN on, arrive any number of times in any order, as long as it is less than
  2^32 positions old, which `ShortStreamsAreRecent` shows to be no assumption below 4 GiB.
  Frames of earlier connections between the same ports are excluded; with them the theorem
  is false of the kernel, and `RunIff` says exactly which frames of any origin are harmless.
- A block device write either happens or fails and leaves arbitrary bytes in the addressed
  sectors, and nowhere else.
- A jump into ring 3 and a context switch are steps after which any code may run.

Where a property fails, the exact condition is proved:

- A SYN-ACK with payload is queued although only its SYN is acknowledged
  (kernel/ipv4.c:1628-1634), so a client can read bytes twice: `SynAckPayloadIsHeardTwice`
  is the run, `CleanStart` the condition.
- Successive connections have initial sequence numbers one apart (kernel/ipv4.c:871,
  kernel/ipv4.c:939), so a delayed frame of one connection can be taken for one of the next.
  All three conclusions of `FromSynToEnd` can fail: a stale segment is read as data
  (`StaleFrameIsHeard`), a stale ACK releases a byte that never arrived (`StaleAckReleases`),
  a stale FIN ends a stream that goes on (`StaleFinIsHeard`). `JoinedIff` is the exact
  condition on a frame of any origin at an open connection, `MeetingIff` the one in every
  phase, `RunIff` the one for whole runs, and `OwnFramesAreHarmless` ties it back.
- The manifest buffer is 1024 bytes but only the configured sectors are written
  (kernel/arfs.c:569-575): `RemountIff` and `SuccessRemounts` say exactly which tables
  survive a remount, `MountsTo` what a cut text mounts to, and `WriteIsForgotten` is a volume
  where a successful write is lost. An empty table never survives (`EmptyDoesNotMount`).
- A host of more than 127 labels gets a query that the kernel's own parser refuses
  (`QueryMeaning`; `LongHostIsRefused` is such a host).
- A path with a line end or zero byte is accepted by `path_is_valid` and never survives a
  remount (`RemountIffClean`); the callers refuse such paths.
- What is written in CLOSE-WAIT goes out (`HalfClosedSends`), but an endpoint of this kernel
  that has sent its own FIN drops it (`FinWaitDropsData`, kernel/tcp.c:258-268).
- The checksum misses exactly the exchange of 0x0000 and 0xffff in a word (`OneDamagedWord`).

## Model

| member | source | states |
|---|---|---|
| `TcpMeeting.FromSynToEnd` | kernel/ipv4.c:1469-1662 | End-to-end stream integrity from the first SYN on: a client dials a listening server over a network that loses, repeats and reorders the frames of this connection, handshake frames included. At every point of every run up to a reset, once both ends are open: each side received a prefix of what the other wrote, whatever a side counts as acknowledged did arrive, and a side that saw the FIN, or whose application was told of it, received everything |
| `TcpMeeting.MeetingStep` | kernel/ipv4.c:1556-1660 | One step of client or server, in any phase of the opening (SYN lost, SYN-ACK lost, last ACK lost while the client already sends data) or of the connection, keeps the pair in agreement or ends that side's connection |
| `TcpMeeting.ArriveOpening` | kernel/tcp.c:120-189 | What any segment makes of an endpoint in SYN-SENT or SYN-RECEIVED: it ends the attempt, completes the handshake, with the stated bytes in the ring, or leaves the numbers as they are |
| `TcpMeeting.MeetingHonest` | kernel/ipv4.c:1640-1643 | One step of either side keeps peer_closed from being set before the peer's FIN was taken |
| `TcpPeerClosed.ArriveHonest` | kernel/ipv4.c:1640-1643 | Any frame, of whatever origin, keeps that of an open connection |
| `TcpPeerClosed.AcceptFlag` | kernel/ipv4.c:1640-1643 | In ESTABLISHED and CLOSE-WAIT peer_closed is set by a FIN in order and by nothing else |
| `TcpMeeting.DialCalls` | kernel/ipv4.c:930-949 | A client that dials and any idle listener are a start of such a run |
| `TcpForeignFrames.RunIff` | kernel/ipv4.c:1469-1662 | The exact condition, over runs: from the SYN on, in any run of the pair without a reset in which any decoded frames arrive, of this connection or an earlier one or forged, the two ends agree at every point if and only if every frame was harmless when it arrived |
| `TcpForeignFrames.JoinedIff` | kernel/ipv4.c:1588-1660 | For one frame of any origin at an open connection that lasts: the ends still agree iff the acknowledgement releases only received bytes, an in-order payload is the continuation of what the peer sent, and a FIN stands where the peer ended its stream |
| `TcpForeignFrames.MeetingIff` | kernel/ipv4.c:1556-1660 | The same in every phase of the opening: only this server's SYN-ACK opens the client, only this client's SYN is answered, no ACK completes the handshake before the client is open |
| `TcpForeignFrames.OwnFramesAreHarmless` | kernel/ipv4.c:1469-1662 | Every frame of the connection itself is harmless |
| `TcpStaleFrames.StaleAckReleases` | kernel/ipv4.c:1601-1604 | Failing run: for any two idle endpoints, an acknowledgement of an earlier connection releases a byte whose segment was lost; it counts as acknowledged, nothing is left to resend, and the server has nothing |
| `TcpStaleFrames.StaleFinIsHeard` | kernel/tcp.c:191-213 | Failing run: a FIN of an earlier connection moves the server to CLOSE-WAIT and tells its application that the client is done, while the client is open |
| `TcpStaleFrames.StaleFrameIsHeard` | kernel/ipv4.c:866-872 | Failing run: initial sequence numbers are one apart, so after RSTs have ended the first connection a delayed segment of it is read by the server on the second, where the client wrote nothing |
| `TcpStaleFrames.HeardIff` | kernel/ipv4.c:1588-1638 | Exactly which frames, of whatever origin, change the receive ring of a connection that lasts: tuple, no RST, no ACK of unsent data, within the window, at the expected sequence number |
| `TcpEndToEnd.EndToEnd` | kernel/ipv4.c:1469-1662 | The same from any pair that agrees: two joined endpoints over a network that loses, repeats and reorders the frames of their connection still agree after any run |
| `TcpEndToEnd.Agree` | kernel/tcp.c:139-189 | A client that has taken nothing yet, but may have written and sent data or even its FIN, and a server that has just completed its side of the handshake, agree |
| `TcpEndToEnd.StepJoined` | kernel/ipv4.c:1588-1660 | One step of either side (write, read, close, poll with any frame of the peer from this connection, handshake included) keeps the agreement of the pair or ends that side's connection |
| `TcpEndToEnd.AcknowledgedArrived` | kernel/ipv4.c:1069-1097 | Every byte an accepted acknowledgement releases had been received by the peer |
| `TcpEndToEnd.FinFindsAll` | kernel/ipv4.c:1241-1283 | When a FIN arrives, the receiver already has every byte its peer wrote |
| `TcpEndToEnd.ShortStreamsAreRecent` | kernel/tcp.c:18-24 | Below 4 GiB each way no assumption on the age of delayed frames is needed |
| `TcpDelivery.ReceiveIntegrity` | kernel/ipv4.c:1588-1638 | For any run of lost, repeated, reordered slices of one peer stream, bytes read plus ring contents are exactly the prefix counted by the acknowledgement number (plus one after FIN) |
| `TcpDelivery.StepDelivers` | kernel/ipv4.c:1588-1638 | One step keeps the received bytes a prefix of the peer stream, and equal to all of it once the FIN is accepted |
| `TcpDelivery.InOrderExtends` | kernel/tcp.c:191-224 | A segment whose wrapped sequence number equals the acknowledgement number is the true continuation of the received prefix |
| `TcpDelivery.AcceptReceives` | kernel/ipv4.c:1628-1638 | An acceptable segment changes the receive ring exactly when it is in order, and then by its whole payload |
| `TcpArrival.DeliverConnected` | kernel/ipv4.c:1185-1200 | The receive ring never drops a byte of an accepted segment, and the acknowledgement number moves by what the ring took (and one for a FIN) |
| `TcpArrival.SendIntegrity` | kernel/ipv4.c:1285-1343 | Over every run: accepted writes = acknowledged bytes, then pending payloads in ring order, then the transmit ring; pending segments tile the sequence space; each frame sent or resent carries the written bytes of its sequence number; a FIN only after all is acknowledged |
| `TcpArrival.StepKeeps` | kernel/ipv4.c:1469-1662 | Every API call and every poll, with any decoded frame, keeps the sender and receiver invariant |
| `TcpArrival.ArriveKeeps` | kernel/ipv4.c:1556-1660 | Any decoded frame, in any of the ten states, keeps the invariant |
| `TcpArrival.AcceptConnected` | kernel/ipv4.c:1588-1660 | An accepted segment in ESTABLISHED or CLOSE-WAIT keeps it, with the acknowledged count moved by exactly the released bytes |
| `TcpArrival.EstablishKeeps` | kernel/ipv4.c:1616-1638 | The segment that completes a handshake releases the SYN and starts a connection whose history is empty and whose frames begin with the handshake; what it may leave in the ring is stated |
| `TcpArrival.ReceiveConnected` | kernel/tcp.c:191-230 | What the listener makes of a segment in ESTABLISHED and CLOSE-WAIT: window, acknowledgement number and state |
| `TcpArrival.ReceiveLeaving` | kernel/tcp.c:231-286 | After the FIN was sent, every outcome is LISTEN or a state that leaves the numbers of the finished stream alone |
| `TcpSafety.MaintainKeeps` | kernel/ipv4.c:1469-1490 | The maintenance half of a poll (retransmission, close timers, window update, flush, close) keeps the invariant |
| `TcpSafety.MaintainPendingKeeps` | kernel/ipv4.c:1099-1144 | Retransmission sends again what was written at that sequence number, or resets |
| `TcpSafety.FlushLoopKeeps` | kernel/ipv4.c:1285-1343 | The transmit loop moves bytes from the ring to the flight without losing, repeating or reordering any |
| `TcpSafety.BeginCloseKeeps` | kernel/ipv4.c:1241-1283 | A FIN is built only when everything written is acknowledged, and takes the next sequence number |
| `TcpSafety.ResetKeeps` | kernel/ipv4.c:866-894 | A reset endpoint satisfies the invariant whatever came before |
| `TcpSending.AcknowledgeReleasesCovered` | kernel/ipv4.c:1069-1097 | Wrapping ACKs: any 32-bit acknowledgement that is accepted releases exactly the longest pending prefix it covers in unbounded arithmetic |
| `TcpSending.StaleAcknowledgement` | kernel/ipv4.c:1069-1097 | A stale acknowledgement releases nothing, also at a distance of exactly 2^31 |
| `TcpSending.CoveredIsLongest` | kernel/ipv4.c:1069-1097 | The covered count is the longest prefix of fully covered segments |
| `TcpListener.BeforeIsTrueOrder` | kernel/tcp.c:18-24 | Section 3.4 of RFC 9293: the wrapping comparison is the true order at every distance up to 2^31, with the exact answer at 2^31 |
| `TcpListener.AcceptedAcknowledgement` | kernel/tcp.c:191-230 | For a word the listener accepts, "equal or after" a point of the flight is the true order of the unwrapped positions |
| `TcpHandshake.CleanStart` | kernel/tcp.c:139-189 | A connection starts with the empty prefix of the peer stream if and only if the completing segment has no payload, completes a passive open, or moves no acknowledgement number |
| `TcpHandshake.SynAckPayloadIsHeardTwice` | kernel/ipv4.c:1628-1634 | Failing run from any idle endpoint that dials, for every byte and every peer start but 2^32 - 1: the payload of a SYN-ACK is queued but not acknowledged, so its repetition is read twice |
| `TcpHandshake.DialKeeps` | kernel/ipv4.c:930-949 | An active open keeps the invariant with the SYN as the first frame of the connection, and reaches SYN-SENT with the SYN pending if the device took it |
| `TcpProgress.TransferDeliversAll` | kernel/ipv4.c:1285-1343 | Liveness without loss: a message of any length written at one end is read at the other, byte for byte, and both ends are ready again |
| `TcpProgress.ExchangeDelivers` | kernel/ipv4.c:1588-1660 | One exchange of data and acknowledgement moves the data whole into the peer's ring, empties the flight and passes on the true window |
| `TcpRecovery.LossyTransferDeliversAll` | kernel/ipv4.c:1099-1144 | Liveness under loss: a message of any length is read at the other end, byte for byte and once, if of each segment one of at most four transmissions and its acknowledgement get through, whatever becomes of the others |
| `TcpRecovery.TriesDeliver` | kernel/ipv4.c:1099-1144 | For one segment: if an attempt among at most four, each made when the backed-off timeout ran out, is answered in time, the segment is in the ring exactly once and the sender is still again |
| `TcpRecovery.NextHearing` | kernel/tcp.c:217-224 | A segment that is heard again is acknowledged again and changes nothing |
| `TcpProgress.LossIsRepaired` | kernel/ipv4.c:1099-1144 | If the segment is lost, the first poll after the timeout sends it again and the peer takes it whole |
| `TcpConversation.HandshakeConnects` | kernel/tcp.c:93-189 | Two idle endpoints of this kernel reach a connection that is ready for data in both directions |
| `TcpConversation.MessageIsRead` | kernel/ipv4.c:1469-1662 | Connect, then write any message at either end: the other end reads exactly that message |
| `TcpFlow.ConnectAndFill` | kernel/ipv4.c:1222-1239 | From two idle endpoints: connect, then write any message in blocks up to the whole transmit ring of 8192 bytes, in either direction: the reader gets all of it, although the window shuts after every 512 bytes and only the window update reopens it |
| `TcpFlow.BlocksAreRead` | kernel/ipv4.c:1285-1343 | The same between any two ends that are ready, however the message is cut into writes |
| `TcpFlow.RoundMoves` | kernel/ipv4.c:1222-1239 | One segment as large as the window allows is taken and acknowledged, the reader reads and polls, and the rest is on its way again |
| `TcpFlow.ReadsAndReopens` | kernel/ipv4.c:1222-1239 | A reader that empties a full ring and polls puts exactly one window update on the wire |
| `TcpWindows.NeverForgotten` | kernel/ipv4.c:1222-1239 | Over every run, whatever arrives: a connection whose peer was last told that the window is shut, although it is not, knows that it has to announce it |
| `TcpWindows.NextPollTells` | kernel/ipv4.c:1222-1239 | Then the next poll over a device that takes the frames puts one on the wire that carries the free space, or the connection ends |
| `TcpWindows.ReadReopens` | kernel/ipv4.c:1222-1239 | In particular after a shut window a read of at least one byte and a poll announce the free space |
| `TcpWindows.UpdateGoesOut` | kernel/ipv4.c:1222-1239 | The window update: an ACK with the free space as window, or the flag is kept if the device does not take it |
| `TcpWindows.FlushIsGreedy` | kernel/ipv4.c:1285-1343 | The transmit loop stops only when nothing is queued, four segments are in flight, or the window or segment size is used up |
| `TcpGoodbye.GoodbyeEnds` | kernel/ipv4.c:1241-1283 | The orderly close of both ends frees both endpoints, one at once and one after TIME-WAIT, without a timeout |
| `TcpGoodbye.CloseSendsFin` | kernel/ipv4.c:1241-1283 | A close request on a drained connection sends the FIN at the next poll |
| `TcpGoodbye.FinIsHeard` | kernel/tcp.c:191-213 | A FIN in order is acknowledged and the reader learns that the stream is over |
| `TcpGoodbye.ClosesBySteps` | kernel/tcp.c:231-286 | In the closing states each segment adds what it tells about the two FINs, and the state always says which of them is acknowledged |
| `TcpGoodbye.WaitsForFin` | kernel/tcp.c:231-286 | FIN-WAIT-2 waits for the FIN and acknowledges it, TIME-WAIT acknowledges it again, LAST-ACK ends with the acknowledgement |
| `TcpGoodbye.HalfClosedSends` | kernel/ipv4.c:1285-1343 | Data written in CLOSE-WAIT, after the peer's FIN, goes out at the next poll |
| `TcpGoodbye.HalfClosedIsAcked` | kernel/tcp.c:226-230 | And its acknowledgement is heard in CLOSE-WAIT |
| `TcpGoodbye.FinWaitDropsData` | kernel/tcp.c:258-268 | Failing case: FIN-WAIT-2 drops data without an answer, so between two endpoints of this kernel what is written after the peer's FIN does not arrive |
| `TcpTimers.TimeoutsStayBounded` | kernel/ipv4.c:1099-1144 | In every reachable state the endpoint timeout and all pending timeouts lie in [100, 2000] ms and nothing was resent more than three times |
| `TcpTimers.UpdateInRange` | kernel/ipv4.c:1038-1067 | One sample keeps the smoothed round trip within the range of samples and the timeout within its clamp |
| `TcpTimers.SmoothedStaysInRange` | kernel/ipv4.c:1038-1067 | After any samples, 0 ms included, the smoothed round trip lies in their range and never returns to 0 |
| `TcpTimers.EstimateOverRun` | kernel/ipv4.c:1069-1097 | After any run the estimate is the estimator applied, in order, to the elapsed times of exactly the segments that were acknowledged without having been resent, over all connections of the endpoint |
| `TcpTimers.SmoothedOverRun` | kernel/ipv4.c:1038-1097 | In every reachable state the smoothed round trip lies in the range of those elapsed times and the starting value |
| `TcpTimers.NeverWithoutEstimateAgain` | kernel/ipv4.c:1038-1097 | With clocks below 2^60 ms, in every reachable state: nothing wraps, and a smoothed round trip that was non-zero or had a sample is non-zero |
| `TcpEstimator.FirstSample` | kernel/ipv4.c:1038-1067 | The first sample is the smoothed round trip, half of it the variance, and the timeout follows |
| `TcpEstimator.NextSample` | kernel/ipv4.c:1038-1067 | Every further sample counts one eighth in the smoothed value and one quarter in the variance, rounded down, and the timeout is smoothed + max(10, 4 * variance) clamped to [100, 2000] |
| `TcpEstimator.MovesAnEighth` | kernel/ipv4.c:1038-1067 | One sample moves the smoothed value an eighth of the way towards it, never past it, and the variance a quarter of its way |
| `TcpEstimator.FirstThenSteady` | kernel/ipv4.c:1038-1067 | Under a constant round trip x the smoothed value is x, the variance decays to 0 and the timeout becomes x + 10 within its bounds |
| `TcpEstimator.Converges` | kernel/ipv4.c:1038-1067 | From any estimate a constant round trip is approached to within 7 ms, and reached from above |
| `TcpEstimator.TimeoutFollowsEstimate` | kernel/ipv4.c:1069-1097 | In every reachable state after a sample the timeout is the one that follows from the estimate |
| `TcpSilence.MaintainRetries` | kernel/ipv4.c:1099-1144 | A poll that does not end the connection leaves the oldest pending segment resent if its timeout ran out and untouched otherwise, and one resent three times ends the connection |
| `TcpSilence.ArriveHead` | kernel/ipv4.c:1556-1660 | A frame that does not acknowledge the oldest pending segment leaves it at the head of the ring or ends the connection |
| `TcpSilence.SilenceEndsConnection` | kernel/ipv4.c:1099-1144 | A silent peer ends the connection: any run in which no frame acknowledges the oldest segment in flight, with any other frames, reads, writes, closes and polls in between, has ended that connection once it held four polls (less what was already resent) at least 2000 ms apart |
| `TcpSilence.BacksOff` | kernel/ipv4.c:1099-1144 | Along any run in which nobody acknowledges it, the oldest segment stays the same and after k more transmissions waits 2^k times as long as at first, up to 2000 ms |
| `TcpClosing.BoundedClose` | kernel/ipv4.c:1146-1176 | Whatever the peer does, the maintenance of a poll 3000 ms after the close was observed leaves that connection gone, through every closing state |
| `TcpClosing.CloseIsObserved` | kernel/ipv4.c:1241-1283 | The first maintenance that sees the close request starts the close timer or ends the connection |
| `TcpClosing.MaintainClosing` | kernel/ipv4.c:1146-1176 | Once the close timer ran out, maintenance ends the connection; only TIME-WAIT goes on, for its own half second |
| `TcpClosing.NotBeforeItsTime` | kernel/ipv4.c:1146-1176 | No close timer ends a connection within 2500 ms of its start, nor TIME-WAIT within 500 ms |
| `TcpClosing.CloseWaitsForData` | kernel/ipv4.c:1241-1283 | A close request waits for data that is queued or in flight, for 2500 ms |
| `TcpClosing.StrangerIff` | kernel/ipv4.c:1571-1582 | A frame of another tuple does nothing, unless it is a SYN and the connection is going away; then it ends |
| `TcpClosing.OpenSurvivesStrangers` | kernel/ipv4.c:1571-1582 | An open connection without a close request survives every frame of another tuple |
| `TcpClosing.MakesRoom` | kernel/ipv4.c:1571-1582 | A connection that is going away makes room for a new SYN on its port at once |
| `TcpEndpoint.ReceiveSegment` | kernel/tcp.c:120-286 | The listener's checks in the kernel's order, on fields updated one by one, compute the state function |
| `TcpEndpoint.Endpoint.constructor` | kernel/ipv4.c:64-99 | A fresh endpoint listens with empty rings and the initial timeout |
| `TcpEndpoint.Endpoint.Read` | kernel/tcp_stream.c:80-96 | Reading takes the oldest bytes of the ring, in order, and flags the window change |
| `TcpEndpoint.Endpoint.Write` | kernel/tcp_stream.c:98-115 | A write is queued whole or refused whole |
| `TcpEndpoint.Endpoint.Close` | kernel/tcp_stream.c:117-121 | Close only requests, and only while connected |
| `TcpEndpoint.Endpoint.Send` | kernel/ipv4.c:792-855 | A segment goes out with the current window, and the last advertised window follows |
| `TcpEndpoint.Endpoint.ResetStream` | kernel/ipv4.c:866-894 | Reset empties rings, flags and timers and keeps the port |
| `TcpEndpoint.Endpoint.Remember` | kernel/ipv4.c:896-928 | A sent segment enters the pending ring with the word its acknowledgement must reach |
| `TcpEndpoint.Endpoint.UpdateTimeout` | kernel/ipv4.c:1038-1067 | The estimator in 64-bit arithmetic is the update function |
| `TcpEndpoint.Endpoint.Acknowledge` | kernel/ipv4.c:1069-1097 | The release loop over the ring is the release function |
| `TcpEndpoint.Endpoint.MaintainPending` | kernel/ipv4.c:1099-1144 | The retransmission loop is the specification function, resets included |
| `TcpEndpoint.Endpoint.MaintainClose` | kernel/ipv4.c:1146-1176 | The close and TIME-WAIT timers |
| `TcpEndpoint.Endpoint.MaintainWindow` | kernel/ipv4.c:1222-1239 | The window update |
| `TcpEndpoint.Endpoint.Flush` | kernel/ipv4.c:1285-1343 | The transmit loop over the ring buffers is the transmit function |
| `TcpEndpoint.Endpoint.MaintainStreamClose` | kernel/ipv4.c:1241-1283 | The close request: FIN when drained, reset on timeout |
| `TcpEndpoint.Endpoint.SendFin` | kernel/ipv4.c:1257-1283 | The FIN is sent and remembered, or the endpoint resets |
| `TcpEndpoint.Endpoint.Maintain` | kernel/ipv4.c:1469-1490 | The maintenance order of one poll |
| `TcpEndpoint.Endpoint.Enqueue` | kernel/ipv4.c:1185-1200 | Bytes enter the ring until it is full |
| `TcpEndpoint.Endpoint.Deliver` | kernel/ipv4.c:1616-1644 | Connection count, delivery, peer close and TIME-WAIT start |
| `TcpEndpoint.Endpoint.Respond` | kernel/ipv4.c:1651-1660 | Reply, remember a SYN-ACK, flush |
| `TcpEndpoint.Endpoint.Accept` | kernel/ipv4.c:1588-1660 | A matching frame, from the window check to the reply |
| `TcpEndpoint.Endpoint.Arrive` | kernel/ipv4.c:1570-1660 | A frame for this port: giving way to a new SYN, then the tuple check |
| `TcpEndpoint.Endpoint.Poll` | kernel/ipv4.c:1469-1662 | One poll: maintenance, then at most one frame |
| `Rings.Ring.Push` | kernel/tcp_stream.c:80-115 | Appends behind the newest element; the modular index arithmetic is the sequence operation |
| `Rings.Ring.Drop` | kernel/tcp_stream.c:80-115 | Removes the oldest elements; the modular index arithmetic is the sequence operation |
| `Rings.Ring.Get` | kernel/tcp_stream.c:80-115 | Reads an element by age; the modular index arithmetic is the sequence operation |
| `FrameCodec.TcpRoundTrip` | kernel/ipv4.c:792-855 | Decoding the frame built for any sendable segment passes both checksums and gives the same tuple, numbers, flags and payload, the window equal to free receive space and MSS 1024 on SYN; it is the abstract frame of the connection model |
| `FrameCodec.UdpRoundTrip` | kernel/ipv4.c:711-763 | The UDP pair, and the checksum sent is never zero |
| `FrameCodec.PacketFound` | kernel/ipv4.c:1510-1523 | The receive path finds the packet inside a printed frame, without the padding |
| `FrameCodec.IpHeaderAccepted` | kernel/ipv4.c:22-34 | The stored header checksum verifies |
| `FrameCodec.TcpAccepted` | kernel/ipv4.c:670-687 | The stored TCP checksum verifies for every segment and payload, odd lengths included |
| `FrameCodec.UdpAccepted` | kernel/ipv4.c:689-709 | So does the UDP checksum, with RFC 768's all-ones for zero |
| `FrameCodec.OtherAddress` | kernel/ipv4.c:1510-1513 | A packet is taken for its own destination address and no other |
| `FrameLayout.FrameIsLaidOut` | kernel/ipv4.c:806-855 | Byte for byte: the peer's MAC and then the own one, 64 hops, protocol, length and addresses where RFC 894 and RFC 791 have them, the segment behind them, zeros up to 60 bytes |
| `FrameLayout.FrontLayout` | kernel/ipv4.c:806-823 | Ethernet and IPv4 header, byte by byte, most significant byte first |
| `FrameLayout.TcpLayout` | kernel/ipv4.c:824-841 | The TCP header of RFC 9293, byte by byte, with the MSS option on a SYN |
| `FrameLayout.UdpLayout` | kernel/ipv4.c:745-756 | The UDP header of RFC 768 |
| `FrameDamage.DamagedSegmentIsDropped` | kernel/ipv4.c:1524-1527 | One damaged word anywhere in a TCP segment, or its odd last byte, other than an exchange of 0x0000 and 0xffff, and the frame is not taken |
| `FrameDamage.DamagedDatagramIsDropped` | kernel/ipv4.c:1431-1435 | The same for a UDP datagram, outside its length and checksum fields |
| `FrameDamage.DamagedHeaderIsDropped` | kernel/ipv4.c:1514-1517 | The same for the IP header, whatever protocol and address are looked for |
| `TcpOptions.MssIsFirst` | kernel/ipv4.c:1385-1410 | For every well-formed option list, however ended, the option loop returns the first MSS value, else 0 |
| `Checksums.FoldResidue` | kernel/ipv4.c:30-32 | Folding keeps the sum modulo 65535 and never makes a positive sum zero |
| `Checksums.AcceptedIff` | kernel/ipv4.c:22-34 | A message is accepted if and only if its words sum to a positive multiple of 65535 |
| `Checksums.SealedIsAccepted` | kernel/ipv4.c:22-34 | Storing the complement makes the receiver's sum come out zero |
| `Checksums.OneDamagedWord` | kernel/ipv4.c:22-34 | A change of one word goes unnoticed exactly when it exchanges 0x0000 and 0xffff |
| `Checksums.ComputeChecksum` | kernel/ipv4.c:22-34 | The summing and folding loops, in 32 bits, compute the complement of the word sum |
| `Checksums.FoldSum` | kernel/ipv4.c:30-33 | The folding loop |
| `FrameBuffers.BuildTcp` | kernel/ipv4.c:792-855 | The buffer filled in place holds the specified frame, padded to 60 bytes |
| `FrameBuffers.PutHeaders` | kernel/ipv4.c:806-823 | Ethernet and IP headers with checksum, in the zeroed buffer |
| `FrameBuffers.PutTcp` | kernel/ipv4.c:824-840 | TCP header, MSS option and payload in place |
| `FrameBuffers.SealBuffer` | kernel/ipv4.c:841-841 | The TCP checksum is computed over the buffer and stored in it |
| `FrameBuffers.ParseMss` | kernel/ipv4.c:1385-1410 | The option loop computes the option function |
| `FrameBuffers.ReceiveTcp` | kernel/ipv4.c:1510-1545 | The checks and field reads of the receive path compute the decoder |
| `ArfsTruncation.MountsTo` | kernel/arfs.c:227-272 | What any number of manifest bytes mounts to, for every table: the entries whose lines are whole, then what is left of the cut line: a directory with a shortened path, a file with a shortened size, or no mount |
| `ArfsTruncation.CutLine` | kernel/arfs.c:187-225 | A line cut after any byte, read: a directory loses the end of its path, a file the last digits of its size, and a file without a size digit is no entry |
| `ArfsTruncation.SuccessMountsTo` | kernel/arfs.c:569-575 | The same of the disk after any operation that succeeded |
| `ArfsTruncation.WriteIsForgotten` | kernel/arfs.c:569-575 | Failing input: a sound volume with one manifest sector and 23 directories on which a permitted write succeeds, and a mount then gives 21 of the directories, one that nobody made, and no file |
| `ArfsRemount.RemountIff` | kernel/arfs.c:227-272 | Persist/mount round trip with its exact condition: a non-empty well-formed table mounts again, same entries in the same order, iff at most the final newline of its text missed the manifest sectors |
| `ArfsRemount.PrintIsShortest` | kernel/arfs.c:227-272 | No text shorter than the printed one parses to a table |
| `ArfsRemount.EmptyDoesNotMount` | kernel/arfs.c:271-271 | An empty table prints but does not mount |
| `ArfsManifest.ParsePrinted` | kernel/arfs.c:227-272 | A printed table is read back entry for entry, whatever ended lines follow |
| `ArfsManifest.LineRoundTrip` | kernel/arfs.c:187-225 | Each line is read back as its entry |
| `ArfsManifest.DecimalRoundTrip` | kernel/arfs.c:68-91 | Printing and parsing agree on all 64-bit numbers |
| `ArfsManifest.DecimalMeaning` | kernel/arfs.c:68-91 | A number is read exactly when it is written in decimal digits and fits 64 bits, and then as its positional value |
| `ArfsExtents.ApplyKeeps` | kernel/arfs.c:659-799 | Any write, mkdir or remove, successful or failed, keeps extents disjoint, in the device and clear of superblock and manifest, and changes what no other path reads |
| `ArfsExtents.RunKeeps` | kernel/arfs.c:659-799 | The same over every run, with paths distinct and the superblock untouched |
| `ArfsExtents.RunLeavesFile` | kernel/arfs.c:445-492 | A file keeps its contents through any run that does not name it |
| `ArfsExtents.WriteReadsBack` | kernel/arfs.c:659-742 | A successful write is read back byte for byte with its type |
| `ArfsExtents.LastWriteWins` | kernel/arfs.c:659-742 | And still is after any further run that does not name the file, failures included |
| `ArfsExtents.FailureKeepsTable` | kernel/arfs.c:732-799 | A failing operation leaves the live table exactly as before |
| `ArfsExtents.PlaceIsApart` | kernel/arfs.c:587-617 | Where a file goes is in the device, off the reserved sectors and apart from all other files |
| `ArfsNamespace.ApplyKeepsNamespace` | kernel/arfs.c:305-401 | One operation keeps paths distinct, parents existing directories, names and limits |
| `ArfsNamespace.RunKeepsNamespace` | kernel/arfs.c:305-401 | Every run does, whatever bytes the paths have |
| `ArfsNamespace.RunKeepsClean` | arch/x86_64/cpu/user_mode.c:699-699 | Runs whose paths have no line end or zero byte keep the table free of them |
| `ArfsNamespace.CleanIsWellFormed` | kernel/arfs.c:305-401 | Such a table is one the manifest can hold |
| `ArfsNamespace.ListIsExact` | kernel/arfs.c:403-443 | A listing is exactly the direct children, each once, in table order |
| `ArfsNamespace.ChildrenExact` | kernel/arfs.c:305-341 | The listed indices are strictly increasing and are exactly the children |
| `ArfsNamespace.SuccessRemounts` | kernel/arfs.c:538-576 | After a successful operation the disk mounts to the live table iff its text fits, the final newline aside; two sectors always do |
| `ArfsNamespace.WriteSurvivesRemount` | kernel/arfs.c:659-742 | A successful write survives a remount, and reads back, iff no path of the table has a line end or zero byte and the text fits, for every path that is accepted |
| `ArfsNamespace.RemountIffClean` | kernel/arfs.c:227-272 | The round trip of every table of the running system, whatever bytes its paths have, with its exact condition |
| `ArfsNamespace.MountedIsClean` | kernel/arfs.c:227-272 | Whatever mounts has no line end or zero byte in its paths |
| `ArfsNamespace.ValidPath` | kernel/arfs.c:353-378 | A valid path has a proper last component and no spaces |
| `ArfsNamespace.PathMeaning` | kernel/arfs.c:353-378 | A path is valid iff it is spelled from components of 1 to 31 bytes without slashes and spaces and shorter than 64 bytes |
| `ArfsNamespace.ChildMeaning` | kernel/arfs.c:305-341 | A child of a directory is its path, a slash and a name |
| `ArfsDirectories.MakeMakesDirectory` | kernel/arfs.c:744-758 | A successful mkdir leaves an empty directory under the path, which is not a file, behind the other children in its parent's listing, and changes no other path |
| `ArfsDirectories.MakeSucceedsIff` | kernel/arfs.c:744-758 | On a working device mkdir succeeds iff the path is valid and new, its parent exists, the table has room and the text still fits |
| `ArfsDirectories.ChildCanBeMade` | kernel/arfs.c:744-758 | In a directory that was just made a child can be made iff the table has room and the text fits |
| `ArfsDirectories.WriteMakesFile` | kernel/arfs.c:659-742 | A successful write leaves a file of that type and size under the path and changes no other path |
| `ArfsDirectories.RemoveSucceedsIff` | kernel/arfs.c:760-799 | On a working device remove succeeds iff the path names a file or a directory without children and the rest prints |
| `ArfsDirectories.RemoveRemoves` | kernel/arfs.c:760-799 | After a successful remove the path names nothing and every other entry is still there |
| `ArfsStatistics.Scan` | kernel/arfs.c:630-653 | The statistics loop counts used sectors and finds the longest free run |
| `ArfsStatistics.AllocatorAgrees` | kernel/arfs.c:600-617 | Allocation of n > 0 sectors succeeds iff n is at most the longest free run, and returns the least start |
| `ArfsStatistics.WriteSucceedsIff` | kernel/arfs.c:659-742 | On a working device a permitted write succeeds iff it fits the old extent or the longest free run and the new table still prints |
| `ArfsStatistics.UsedIsTotal` | kernel/arfs.c:619-657 | With disjoint extents, used sectors are the extents' sectors in the data region, each counted once |
| `ArfsStore.Store.PersistManifest` | kernel/arfs.c:538-576 | The table printed into the 1024-byte buffer and written |
| `ArfsStore.Store.PutEntry` | kernel/arfs.c:538-569 | One line, refused exactly when it does not fit |
| `ArfsStore.Store.FindEntry` | kernel/arfs.c:343-351 | First entry with the path |
| `ArfsStore.Store.SectorRangeIsFree` | kernel/arfs.c:587-598 | The overlap loop |
| `ArfsStore.Store.AllocateSectors` | kernel/arfs.c:600-617 | First fit |
| `ArfsStore.Store.CreateDirectory` | kernel/arfs.c:744-758 | mkdir with rollback |
| `ArfsStore.Store.WriteBytes` | kernel/arfs.c:659-742 | Write: place, data, entry, manifest, rollback |
| `ArfsStore.Store.CommitFile` | kernel/arfs.c:719-741 | The entry in the table, taken back if the manifest write fails |
| `ArfsStore.Store.ShiftDown` | kernel/arfs.c:783-787 | Closing the gap in the table |
| `ArfsStore.Store.ShiftUp` | kernel/arfs.c:789-795 | Undoing it puts the table back |
| `ArfsStore.Store.Remove` | kernel/arfs.c:760-799 | Remove with shift and unshift |
| `ArfsStore.Store.ListDirectory` | kernel/arfs.c:403-443 | The listing loop |
| `ArfsStore.Store.ParseManifest` | kernel/arfs.c:227-272 | The parser over the buffer fills the table |
| `ArfsStore.PathIsValid` | kernel/arfs.c:353-378 | The path check in one pass |
| `ArfsStore.ScanDecimal` | kernel/arfs.c:68-91 | The digit loop with its 64-bit overflow check |
| `ArfsStore.ParseEntry` | kernel/arfs.c:187-225 | One manifest line |
| `HeapRuns.RunStaysSound` | kernel/memory.c:291-355 | Over every run of kmalloc and kfree of live pointers: headers and payloads tile the heap, no two free neighbours, used_bytes is the sum of live sizes, and the heap holds exactly what callers were given and have not given back, 16-aligned and disjoint |
| `HeapRuns.EverythingFreedRestores` | kernel/memory.c:223-235 | Once callers hold nothing, the heap is the single initial block, whatever happened before |
| `HeapRuns.AllocateKeeps` | kernel/memory.c:291-332 | kmalloc succeeds iff some free block holds the rounded size, and the block is new and large enough |
| `HeapRuns.FreeKeeps` | kernel/memory.c:334-355 | kfree gives back exactly that block and its bytes |
| `HeapGaps.AllocateIffGap` | kernel/memory.c:291-332 | kmalloc succeeds iff what callers hold, headers included, leaves a gap of the rounded size and a header: nothing else about the past matters |
| `HeapGaps.RunThenAllocate` | kernel/memory.c:291-332 | The same after every run from initialisation, judged by the ledger alone |
| `HeapGaps.AllocateIsTight` | kernel/memory.c:305-327 | What is handed out is less than a header and 16 bytes above the rounded size, and the free bytes fall by it and at most one header |
| `HeapGaps.TakenIsTight` | kernel/memory.c:305-327 | A block is split iff a header and 16 bytes would be left, and then exactly the rounded size is taken |
| `HeapGaps.BytesAccounted` | kernel/memory.c:223-235 | Every byte of the heap is a header byte, held by a caller, or free |
| `HeapBlocks.TakeCounts` | kernel/memory.c:305-327 | Splitting adds one live block and moves none |
| `HeapBlocks.TakeKeeps` | kernel/memory.c:305-327 | Splitting keeps the heap well formed |
| `HeapBlocks.ReleaseKeeps` | kernel/memory.c:334-355 | Releasing and merging removes one live block, moves none, and keeps the heap well formed |
| `HeapBlocks.CoalesceKeeps` | kernel/memory.c:223-235 | After merging no two neighbours are free |
| `HeapBlocks.AlignUp` | kernel/memory.c:42-54 | Rounds up by less than 16, or saturates |
| `KernelHeap.KernelHeap.constructor` | kernel/memory.c:273-289 | The initial block |
| `KernelHeap.KernelHeap.Kmalloc` | kernel/memory.c:291-332 | The walk over linked headers with in-place split is first fit on the block list |
| `KernelHeap.KernelHeap.TakeBlock` | kernel/memory.c:310-327 | The split and the bookkeeping of the chosen block |
| `KernelHeap.KernelHeap.Kfree` | kernel/memory.c:334-355 | Freeing through the header address; null and already free blocks change nothing |
| `KernelHeap.KernelHeap.CoalesceBlocks` | kernel/memory.c:223-235 | The in-place merge loop merges every run of free neighbours |
| `AwpTasks.RunKeeps` | arch/x86_64/cpu/user_mode.c:1285-1416 | Over every run of spawns, polls, traps, input and cancellation: outside ring 3 no task runs; a blocked task has no input and a writable non-empty buffer; bytes handed over plus ring are the accepted bytes in order; nothing is written outside the stack |
| `AwpTasks.StepKeeps` | arch/x86_64/cpu/user_mode.c:758-883 | Each entry point keeps that |
| `AwpTasks.CompleteKeeps` | arch/x86_64/cpu/user_mode.c:758-790 | A read with input at hand hands over a prefix of the ring, at the buffer |
| `AwpTasks.WakesBlocked` | arch/x86_64/cpu/user_mode.c:1385-1402 | No lost wakeup: a byte for a blocked task goes into its buffer and makes it ready |
| `AwpTasks.DispatchedWithinFour` | arch/x86_64/cpu/user_mode.c:1285-1308 | Without a spawn, a task that stays ready is passed over by at most three polls |
| `AwpTasks.SliceEnds` | arch/x86_64/cpu/user_mode.c:1119-1138 | A dispatched task is back in the kernel by its second timer tick |
| `AwpTasks.ReusableExact` | arch/x86_64/cpu/user_mode.c:604-620 | A slot is handed out only without a live program in it, empty ones first, and refused only when every slot is live |
| `AwpFates.EndIsFinal` | arch/x86_64/cpu/user_mode.c:807-850 | A program that exits or faults is over with its code, and is never dispatched again until its slot is emptied or reused |
| `AwpFates.TrapEnds` | arch/x86_64/cpu/user_mode.c:807-1161 | The phase and code that each ending leaves: exit code, 127, 128 + vector; a retry and the second tick leave it ready |
| `AwpFates.ReadBlocks` | arch/x86_64/cpu/user_mode.c:851-883 | A read without input blocks on its buffer, a bad buffer ends the program |
| `AwpFates.CancelEnds` | arch/x86_64/cpu/user_mode.c:1404-1416 | Cancelling succeeds iff the task exists, is not active and not over; it leaves the given code, or 130 |
| `AwpFates.OverRests` | arch/x86_64/cpu/user_mode.c:1285-1308 | A program that is over stays over, with its code, through every run |
| `AwpFates.SpawnedIsDispatched` | arch/x86_64/cpu/user_mode.c:1359-1383 | A program that was spawned is dispatched by the fourth poll that finds no task active, unless it is cancelled or another is spawned |
| `AwpFates.ReadyIsDispatched` | arch/x86_64/cpu/user_mode.c:1285-1308 | So is every ready program |
| `AwpFates.SpawnStarts` | arch/x86_64/cpu/user_mode.c:1359-1383 | A spawned program is ready, under a new pid, without input or history |
| `AwpFates.DeliverAnswers` | arch/x86_64/cpu/user_mode.c:1385-1402 | Input is taken iff the task is ready or blocked with room in its ring; a ready task finds it last, a blocked one is woken by it |
| `AwpFates.RetireEmpties` | arch/x86_64/cpu/user_mode.c:1336-1357 | The slot of a program that neither runs nor can run is emptied |
| `AwpRuntime.MoveBytes` | arch/x86_64/cpu/user_mode.c:766-783 | The copy loop from the input ring to user memory: memory is as before with exactly the handed-over bytes stored from the buffer on, until an address is refused |
| `AwpRuntime.StoredLands` | arch/x86_64/cpu/user_mode.c:766-783 | What was stored lies in memory byte for byte, and no other address changed |
| `AwpRuntime.UserRuntime.CompletePendingRead` | arch/x86_64/cpu/user_mode.c:758-790 | The completed read, with the bytes it handed over in the memory of its slot and no other memory changed |
| `AwpRuntime.UserRuntime.DeliverInput` | arch/x86_64/cpu/user_mode.c:1385-1402 | Input delivery with the ring's tail arithmetic; on a wakeup the bytes are in user memory |
| `AwpRuntime.UserRuntime.CancelTask` | arch/x86_64/cpu/user_mode.c:1404-1416 | Cancellation |
| `AwpRuntime.UserRuntime.PollTasks` | arch/x86_64/cpu/user_mode.c:1285-1308 | Round-robin dispatch |
| `AwpRuntime.UserRuntime.FindReusable` | arch/x86_64/cpu/user_mode.c:604-620 | The two passes over the slots |
| `AwpRuntime.UserRuntime.SpawnImage` | arch/x86_64/cpu/user_mode.c:1359-1383 | Spawn with its failure paths |
| `AwpRuntime.UserRuntime.EnterKernel` | arch/x86_64/cpu/user_mode.c:807-1161 | System calls, ticks and faults as far as they change task state; user memory changes by the completed read and nothing else |
| `AwpRuntime.UserRuntime.HandleRead` | arch/x86_64/cpu/user_mode.c:851-883 | The read call; what it hands over is in user memory |
| `EndpointOwnership.RunKeeps` | kernel/awp_network.c:35-217 | Over all interleavings of owners and network: each allocated endpoint 1..3 has exactly one handle, endpoint 0 none; bound ports distinct; listening endpoints listen on their bound port; handle states agree |
| `EndpointOwnership.DispatchIsUnique` | kernel/ipv4.c:1558-1566 | A port is served by at most one endpoint, so first match is the only match |
| `EndpointOwnership.ConsoleStays` | kernel/ipv4.c:364-372 | The console endpoint is never handed out or released and keeps its port |
| `EndpointOwnership.NothingLeaks` | kernel/awp_network.c:35-54 | When no handle holds anything, endpoints 1..3 are free |
| `EndpointOwnership.OpenKeeps` | kernel/awp_network.c:56-73 | Open succeeds iff the owner has a free handle and an endpoint is free |
| `EndpointOwnership.BindKeeps` | kernel/awp_network.c:75-90 | Binding fails with address-in-use iff some endpoint has the port |
| `EndpointOwnership.ListenKeeps` | kernel/awp_network.c:92-105 | Listening on a bound handle cannot fail |
| `EndpointOwnership.ConnectKeeps` | kernel/awp_network.c:107-139 | Connect keeps the invariant in all its outcomes |
| `EndpointOwnership.CloseKeeps` | kernel/awp_network.c:193-217 | So does close |
| `EndpointOwnership.CleanupKeeps` | kernel/awp_network.c:35-54 | Cleanup leaves the owner without handles |
| `EndpointReplies.CloseAnswers` | kernel/awp_network.c:193-217 | Close asks for the close of a connected stream and waits, gives a waiting handle and its endpoint up iff the stream is closed, and any other at once |
| `EndpointReplies.SecondCloseFrees` | kernel/awp_network.c:193-217 | If the stream is closed after a close answered retry, the next close frees handle and endpoint |
| `EndpointReplies.ConnectAnswers` | kernel/awp_network.c:107-139 | Connect answers 0 iff the stream is connected, unavailable iff the attempt failed, retry otherwise, and starts an attempt from a bound handle |
| `EndpointReplies.BindAndListen` | kernel/awp_network.c:75-105 | After bind the port is the endpoint's and the handle's; after listen the endpoint listens on it |
| `EndpointReplies.OpenGives` | kernel/awp_network.c:56-73 | Open joins a free handle and a free endpoint other than the console's |
| `EndpointReplies.WrongStateIsInvalid` | kernel/awp_network.c:75-217 | Calls on a handle in the wrong state are invalid and change nothing |
| `AwpNetwork.NetworkTable.Open` | kernel/awp_network.c:56-73 | Open on the tables, scans included, computes the specified reply and new table |
| `AwpNetwork.NetworkTable.Bind` | kernel/awp_network.c:75-90 | Bind on the tables, scans included, computes the specified reply and new table |
| `AwpNetwork.NetworkTable.Listen` | kernel/awp_network.c:92-105 | Listen on the tables, scans included, computes the specified reply and new table |
| `AwpNetwork.NetworkTable.Connect` | kernel/awp_network.c:107-139 | Connect on the tables, scans included, computes the specified reply and new table |
| `AwpNetwork.NetworkTable.Close` | kernel/awp_network.c:193-217 | Close on the tables, scans included, computes the specified reply and new table |
| `AwpNetwork.NetworkTable.CleanUp` | kernel/awp_network.c:35-54 | Cleanup on the tables, scans included, computes the specified reply and new table |
| `AwpNetwork.NetworkTable.constructor` | kernel/ipv4.c:148-154 | The tables at start are the initial state of the ownership theorems |
| `AwpNetwork.NetworkTable.ConnectEndpoint` | kernel/ipv4.c:314-346 | The active open of an endpoint, with its three answers |
| `AwpNetwork.NetworkTable.OpenEndpoint` | kernel/ipv4.c:243-255 | The scan for a free endpoint from 1 |
| `AwpNetwork.NetworkTable.PortAvailable` | kernel/ipv4.c:271-281 | The port scan |
| `AwpNetwork.NetworkTable.ReleaseEndpoint` | kernel/ipv4.c:364-372 | Release, except of endpoint 0 |
| `ProcessDispatch.RunKeeps` | kernel/process.c:39-251 | At any nesting depth, over every run: no context switch is lost, running processes are those the passes are inside of, current and scheduler_context name the innermost process and pass |
| `ProcessDispatch.EveryRunIsOk` | kernel/process.c:21-37 | The same from initialisation |
| `ProcessDispatch.SwitchKeeps` | kernel/process.c:178-203 | Every yield or finish switches to the innermost pass |
| `ProcessDispatch.PassRestores` | kernel/process.c:205-251 | A pass returns with current, scheduler_context and all outer passes as they were at the call |
| `ProcessDispatch.PassServes` | kernel/process.c:218-250 | A pass resumes exactly the slots that are ready and of its kind at their turn, each once, in order, and returns their number |
| `ProcessDispatch.RunCountIsExact` | kernel/process.c:225-240 | run_count is the number of times the process was resumed, over all passes of all depths |
| `ProcessFates.YieldedRunsAgain` | kernel/process.c:178-203 | A process that yielded is among the turns of the next pass of its kind, unless a pass started inside that one resumed it |
| `ProcessFates.SpawnedRuns` | kernel/process.c:92-145 | So is a process that was spawned |
| `ProcessFates.FinishIsFinal` | kernel/process.c:39-72 | A process that finished is resumed by no pass at any depth and keeps its pid and count until a spawn takes its slot |
| `ProcessFates.YieldLeavesReady` | kernel/process.c:178-203 | Yield leaves the process ready and touches no other |
| `ProcessFates.StrangerYieldsNothing` | kernel/process.c:178-190 | A yield with the runtime of a process that is not the current one does nothing |
| `ProcessFates.FinishLeavesFinished` | kernel/process.c:39-72 | The end of its code leaves it finished and touches no other |
| `ProcessFates.SpawnLeavesReady` | kernel/process.c:92-145 | A spawned process is ready under a new pid in the slot it was given |
| `ProcessFates.SpawnFails` | kernel/process.c:92-145 | One that cannot be initialised leaves its slot empty; without a slot nothing happens |
| `ProcessDispatch.SpawnSlotExact` | kernel/process.c:74-90 | The first empty slot, else the first finished one, refused only when every slot is live |
| `ProcessDispatch.SpawnKeeps` | kernel/process.c:92-145 | Spawning reuses only slots without a live process |
| `ConfigText.LoadIff` | kernel/config.c:167-222 | A file is accepted iff its lines are the five settings, each once; the result says what the lines say; otherwise remote access is off |
| `ConfigText.PrintedReloads` | kernel/config.c:253-274 | What is printed loads as what was printed |
| `ConfigText.PrintFits` | kernel/config.c:253-265 | Every valid configuration fits the 256-byte buffer |
| `ConfigText.PermutedLines` | kernel/config.c:188-208 | The order of the lines does not matter |
| `ConfigText.LoadedIsOk` | kernel/config.c:100-165 | What loads as valid has a legal port and key |
| `ConfigText.TakenIff` | kernel/config.c:158-164 | Lines are taken iff each is a setting and no field repeats |
| `ConfigText.NumberRoundTrip` | kernel/config.c:59-76 | Printing and parsing agree on all 32-bit numbers |
| `ConfigText.NumberMeaning` | kernel/config.c:59-76 | A number is read exactly when it is written in decimal digits and fits 32 bits, and then as its positional value |
| `ConfigText.LinesMean` | kernel/config.c:100-165 | How each setting is written |
| `ConfigStore.SetIsItsLine` | kernel/config.c:276-314 | Set takes exactly what the file could hold as a line for enabled, port or level, and does what loading that line does |
| `ConfigStore.Configuration.Load` | kernel/config.c:167-222 | Loading, missing and unusable files included |
| `ConfigStore.Configuration.Store` | kernel/config.c:253-274 | A written candidate reloads to itself; a failed write leaves the configuration |
| `ConfigStore.Configuration.Set` | kernel/config.c:276-314 | Set succeeds iff key and value are good and the write succeeds; then exactly the named field has the given value and the file reloads to it; else nothing changed |
| `ConfigStore.Configuration.SetRemoteKey` | kernel/config.c:316-331 | The same for the key |
| `ConfigStore.FindSeparator` | kernel/config.c:106-117 | The loop for the one separator |
| `ConfigStore.ScanNumber` | kernel/config.c:59-76 | The digit loop with its 32-bit overflow check |
| `ConfigStore.CopyKey` | kernel/config.c:78-98 | The key check |
| `ConfigStore.ScanLine` | kernel/config.c:100-157 | One line as a setting |
| `ConfigStore.TakeText` | kernel/config.c:188-213 | The line loop with CR, LF and CR LF breaks |
| `ConfigStore.PrintInto` | kernel/config.c:253-265 | The chain of appends never fails for a valid configuration |
| `DnsCodec.QueryIff` | libs/libnet/dns.c:41-94 | A query is built iff the host has valid 1..63-byte labels and capacity is at least its length plus 18 |
| `DnsCodec.QueryMeaning` | libs/libnet/dns.c:41-94 | The bytes of the query for every host that is accepted: header, printed labels, zero, type A, class IN, where the labels joined by dots are the host. The kernel's own parser skips the question iff it has at most 127 labels, and then the query is one message with a single IN A question |
| `DnsCodec.LongHostIsRefused` | libs/libnet/dns.c:12-39 | Failing input: a host of 128 one-letter labels is accepted, and the kernel's own parser refuses the name in the query |
| `DnsCodec.ResponseMeaning` | libs/libnet/dns.c:96-144 | For every well-formed message, any number of questions and answers, names plain or compressed, any trailing bytes: the parser returns the first IN A record, else not-found; error codes and identifier mismatches are told apart |
| `DnsSoundness.AddressIsInMessage` | libs/libnet/dns.c:96-144 | Whatever bytes arrive, an address is returned only if they begin with a well-formed message of the asked identifier whose first IN A record it is |
| `DnsSoundness.SkippedName` | libs/libnet/dns.c:12-39 | Whatever is skipped as a name is a printed name |
| `DnsCodec.SkipPrinted` | libs/libnet/dns.c:12-39 | Skipping a name lands right behind it, plain or compressed, up to 127 labels |
| `DnsBuffers.BuildAQuery` | libs/libnet/dns.c:41-94 | The loop over the host fills the output buffer with the query or gives the code of the first fault |
| `DnsBuffers.SkipOver` | libs/libnet/dns.c:12-39 | The name loop |
| `DnsBuffers.ParseAResponse` | libs/libnet/dns.c:96-144 | The loops over questions and answers, always in bounds |

## Left out

- Device drivers, port I/O, page tables, interrupt entry and the context-switch instructions.
- Shell, console, editor, calculator, TLS and the other user-interface code.
- ICMP echo, ARP resolution and the gateway ping; the active open is modelled from the ARP answer on.
- The RST sent for an unknown port (kernel/ipv4.c:1345-1383) and all diagnostic counters.
- UDP endpoints beyond the frame codec: their ownership, which repeats that of TCP with fewer states, and the delivery to an endpoint.
- TcpEndpoint.Endpoint.Poll: one endpoint at a time; the choice of the endpoint by port is `EndpointOwnership.DispatchIsUnique`.
- TcpEndpoint.Endpoint.constructor: listens on a given port at once, where `initialize_tcp_endpoint` leaves port 0 and listening off until `arwill_ipv4_tcp_listen`; the allocation of endpoints is in `EndpointTable`.
- TcpEndpoint.Endpoint.ResetStream: the payloads of dead pending slots are not cleared, only their count is; `active_open`, the connect fields and the drop counter are not part of the endpoint.
- TcpEndpoint.Endpoint.MaintainPending: `connect_failed` after an active open that timed out and the counters are not part of the endpoint.
- TcpEndpoint.Endpoint.Accept: `connect_failed`, the peer's MAC address and the counters are not part of the endpoint.
- TcpHandshake.DialKeeps: `connect_failed` and `connect_pending` after a refused SYN; how they steer the owner's handle is in `EndpointOwnership`.
- TcpRecovery.LossyTransferDeliversAll: one segment in flight at a time, and an answer arrives after its own transmission and before the next; reordering and duplication are in `FromSynToEnd`.
- TcpMeeting.FromSynToEnd: covers one connection, from SYN to the first reset of either side, between two endpoints of this kernel; a simultaneous open does not exist in the kernel (SYN-SENT refuses a bare SYN).
- TcpDelivery.ReceiveIntegrity: starts at ESTABLISHED with an empty ring; payload that arrives in the FIN-WAIT states is not delivered by the kernel (kernel/tcp.c:239-268) and not claimed.
- TcpArrival.SendIntegrity: claims no right edge for the peer window, since the kernel takes each received window as a fresh allowance (kernel/tcp.c:129, kernel/ipv4.c:1334).
- FrameCodec.UdpRoundTrip: the UDP frame is built and read as a value, not in the buffer, and the match against the endpoint table is not modelled.
- The superblock of ARFS: its three numbers are the parameters of a volume.
- Crash consistency and atomic overwrite of ARFS, which the repository does not promise; a failed data write may tear the file being written.
- KernelHeap.KernelHeap.constructor: starts from the heap's address and size; the page allocation and its contiguity check come before it.
- KernelHeap.KernelHeap.Kfree: the pointer must be null or belong to a block of the chain; memory holds headers only, and that payload writes stay out of them follows from the tiling.
- The physical page allocator (kernel/memory.c:56-213); the heap starts from contiguous pages.
- AwpRuntime.UserRuntime.EnterKernel: system calls that leave the task state alone (files, clock, network results other than retry) are one step that changes nothing.
- AwpRuntime.UserRuntime.SpawnImage: whether name, argument and image are acceptable is given by the caller; registers and page contents other than transferred input are not modelled.
- EndpointOwnership.CleanupKeeps: the TCP part; the owner's UDP endpoint is not part of the table.
- AwpNetwork.NetworkTable.CleanUp: the same.
- AwpNetwork.NetworkTable.Connect: the peer's address is reduced to whether it is acceptable; read, write and accept do not change ownership and are left out.
- ProcessDispatch.PassServes: the process table is a value and the steps are those between context switches, because a switch leaves one function and resumes another; process names, stacks and entry points are left out.
- ConfigStore.Configuration.Load: the file is missing, not text, or text; the filesystem that stores it is a parameter.
- Event log, block regions, calendar conversion and URL parsing, which would only add easy members.
