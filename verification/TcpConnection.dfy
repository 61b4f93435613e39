/** One TCP endpoint of kernel/ipv4.c and kernel/tcp_stream.c, as a value and the
    functions that step it.  `TcpEndpoint.Endpoint` is the same endpoint as an
    object with rings and counters that its methods update in place. */
module TcpConnection {
  import opened Words
  import opened Wrappers
  import opened TcpListener

  const RECEIVE_CAPACITY := 512
  const TRANSMIT_CAPACITY := 8192
  const PENDING_CAPACITY := 4
  const PENDING_PAYLOAD := 1024
  const LOCAL_MSS := 1024
  const FRAME_CAPACITY := 1536
  const RTO_INITIAL := 250
  const RTO_MINIMUM := 100
  const RTO_MAXIMUM := 2000
  const MAX_RETRANSMISSIONS := 3
  const TIME_WAIT_MS := 500
  const CLOSE_TIMEOUT_MS := 2500

  type ReceiveRing = s: seq<byte> | |s| <= 512
  type TransmitRing = s: seq<byte> | |s| <= 8192
  type PendingRing = s: seq<Pending> | |s| <= 4

  /** What the network device is offered: the segment as it goes on the wire. */
  datatype Frame = Frame(segment: Segment, payload: seq<byte>)

  datatype Pending = Pending(
    segment: Segment, payload: seq<byte>, expected: u32,
    sentAt: u64, timeout: u64, retransmissions: nat)

  datatype RoundTrip = RoundTrip(smoothed: u64, variance: u64, timeout: u64)

  /** `generation` counts the calls of `reset_tcp_stream`, so it names the
      connection; `wire` is every frame the device ever took, `offers` the number
      of frames it was offered. */
  datatype Connection = Connection(
    l: Listener, rx: ReceiveRing, tx: TransmitRing,
    peerClosed: bool, closeRequested: bool, windowChanged: bool, connections: u32,
    pending: PendingRing, closeStarted: u64, timeWaitStarted: u64,
    rtt: RoundTrip, lastWindow: u16, windowUpdate: bool,
    generation: nat, wire: seq<Frame>, offers: nat)

  /** The device's answers: does it take the n-th frame it is offered? */
  type Device = nat -> bool

  predicate Connected(c: Connection) {
    IsConnected(c.l.state)
  }

  function Window(c: Connection): u16 {
    RECEIVE_CAPACITY - |c.rx|
  }

  function HeaderLength(flags: byte): nat {
    if HasSyn(flags) then 24 else 20
  }

  /** A segment without flags, or one that does not fit a frame, counts as sent
      although nothing goes out. */
  predicate IsSendable(s: Segment, payload: seq<byte>) {
    s.flags != 0 && |payload| <= FRAME_CAPACITY - 14 - 20 - HeaderLength(s.flags)
  }

  function OnWire(c: Connection, s: Segment, payload: seq<byte>): Frame {
    Frame(s.(window := Window(c), mss := if HasSyn(s.flags) then LOCAL_MSS else 0,
             length := |payload|), payload)
  }

  function Send(c: Connection, s: Segment, payload: seq<byte>, dev: Device): (Connection, bool) {
    if !IsSendable(s, payload) then (c, true)
    else if !dev(c.offers) then (c.(offers := c.offers + 1), false)
    else
      var c1 := c.(offers := c.offers + 1, wire := c.wire + [OnWire(c, s, payload)]);
      if s.sourcePort == c.l.port && s.destinationPort == c.l.peerPort
      then (c1.(lastWindow := Window(c)), true)
      else (c1, true)
  }

  function ResetStream(c: Connection): Connection {
    c.(l := Init(c.l.port, U32(0x4152_0000 + c.connections)),
       rx := [], tx := [], peerClosed := false, closeRequested := false, windowChanged := false,
       pending := [], closeStarted := 0, timeWaitStarted := 0, windowUpdate := false,
       generation := c.generation + 1)
  }

  function PendingFor(c: Connection, now: u64, s: Segment, payload: seq<byte>): Pending {
    var phantom := if HasSyn(s.flags) || HasFin(s.flags) then 1 else 0;
    Pending(s, payload, U32(s.sequence + |payload| + phantom), now, c.rtt.timeout, 0)
  }

  predicate CanRemember(c: Connection, payload: seq<byte>) {
    |payload| <= PENDING_PAYLOAD && |c.pending| < PENDING_CAPACITY
  }

  function Remember(c: Connection, now: u64, s: Segment, payload: seq<byte>): (Connection, bool) {
    if CanRemember(c, payload)
    then (c.(pending := c.pending + [PendingFor(c, now, s, payload)]), true)
    else (c, false)
  }

  /** Section 2 of RFC 6298 in integer milliseconds. */
  function UpdateRoundTrip(r: RoundTrip, rawSample: u64): RoundTrip {
    var sample := if rawSample == 0 then 1 else rawSample;
    var s, v :=
      if r.smoothed == 0 then sample else U64(7 * r.smoothed + sample) / 8,
      if r.smoothed == 0 then sample / 2
      else
        var difference := if r.smoothed > sample then r.smoothed - sample else sample - r.smoothed;
        U64(3 * r.variance + difference) / 4;
    var spread := if U64(4 * v) < 10 then 10 else U64(4 * v);
    var timeout := U64(s + spread);
    RoundTrip(s, v, if timeout < RTO_MINIMUM then RTO_MINIMUM
                    else if timeout > RTO_MAXIMUM then RTO_MAXIMUM else timeout)
  }

  /** Does acknowledgement `word` release a pending segment that waits for `expected`? */
  predicate Releases(word: u32, expected: u32) {
    word == expected || After(word, expected)
  }

  function Acknowledge(c: Connection, now: u64, word: u32): Connection
    decreases |c.pending|
  {
    if c.pending == [] || !Releases(word, c.pending[0].expected) then c
    else
      var p := c.pending[0];
      var rtt := if p.retransmissions == 0 && now >= p.sentAt
                 then UpdateRoundTrip(c.rtt, now - p.sentAt) else c.rtt;
      Acknowledge(c.(rtt := rtt, pending := c.pending[1..]), now, word)
  }

  predicate Expired(p: Pending, now: u64) {
    U64(now - p.sentAt) >= p.timeout
  }

  function Resent(p: Pending, now: u64): Pending {
    p.(sentAt := now, retransmissions := p.retransmissions + 1,
       timeout := if p.timeout < RTO_MAXIMUM / 2 then p.timeout * 2 else RTO_MAXIMUM)
  }

  /** `maintain_pending_segment` from pending segment `i` on. */
  function MaintainPendingFrom(c: Connection, i: nat, now: u64, dev: Device): Connection
    decreases |c.pending| - i
  {
    if i >= |c.pending| then c
    else if !Expired(c.pending[i], now) then MaintainPendingFrom(c, i + 1, now, dev)
    else if c.pending[i].retransmissions >= MAX_RETRANSMISSIONS then ResetStream(c)
    else
      var p := c.pending[i];
      var sent := Send(c, p.segment, p.payload, dev).0;
      MaintainPendingFrom(sent.(pending := sent.pending[i := Resent(p, now)]), i + 1, now, dev)
  }

  function MaintainPending(c: Connection, now: u64, dev: Device): Connection {
    MaintainPendingFrom(c, 0, now, dev)
  }

  predicate IsClosing(s: State) {
    s == LastAck || s == FinWait1 || s == FinWait2 || s == Closing
  }

  function MaintainClose(c: Connection, now: u64): Connection {
    if IsClosing(c.l.state) then
      var c1 := if c.closeStarted == 0 then c.(closeStarted := now) else c;
      if U64(now - c1.closeStarted) >= CLOSE_TIMEOUT_MS then ResetStream(c1) else c1
    else if c.l.state == TimeWait then
      var c1 := if c.timeWaitStarted == 0 then c.(timeWaitStarted := now) else c;
      if U64(now - c1.timeWaitStarted) >= TIME_WAIT_MS then ResetStream(c1) else c1
    else c
  }

  function CurrentAck(c: Connection): Segment {
    Segment(c.l.local, c.l.peer, c.l.port, c.l.peerPort, c.l.sequence, c.l.acknowledgement,
            ACK, Window(c), 0, 0)
  }

  function MaintainWindow(c: Connection, dev: Device): Connection {
    var c1 := if c.windowChanged
              then c.(windowUpdate := c.windowUpdate || (c.lastWindow == 0 && Window(c) != 0),
                      windowChanged := false)
              else c;
    if !c1.windowUpdate || !Connected(c1) then c1
    else
      var (c2, ok) := Send(c1, CurrentAck(c1), [], dev);
      if ok then c2.(windowUpdate := false) else c2
  }

  function ChunkLength(c: Connection): nat {
    Min(Min(Min(|c.tx|, PENDING_PAYLOAD), c.l.peerMss), c.l.peerWindow)
  }

  function DataSegment(c: Connection, length: nat): Segment {
    Segment(c.l.local, c.l.peer, c.l.port, c.l.peerPort, c.l.sequence, c.l.acknowledgement,
            ACK + PSH, Window(c), 0, length)
  }

  /** The bookkeeping after `length` bytes went out and were remembered. */
  function Advance(c: Connection, length: nat): Connection
    requires length <= |c.tx| && length <= c.l.peerWindow
  {
    c.(l := c.l.(sequence := U32(c.l.sequence + length), peerWindow := c.l.peerWindow - length),
       tx := c.tx[length..])
  }

  function FlushLoop(c: Connection, now: u64, dev: Device): Connection
    decreases |c.tx|
  {
    if |c.pending| >= PENDING_CAPACITY || c.tx == [] || c.l.peerWindow == 0 || ChunkLength(c) == 0
    then c
    else
      var n := ChunkLength(c);
      var payload := c.tx[..n];
      var s := DataSegment(c, n);
      var (c1, ok) := Send(c, s, payload, dev);
      if !ok then c1
      else FlushLoop(Advance(c1.(pending := c1.pending + [PendingFor(c1, now, s, payload)]), n),
                     now, dev)
  }

  function Flush(c: Connection, now: u64, dev: Device): Connection {
    if Connected(c) then FlushLoop(c, now, dev) else c
  }

  function MaintainStreamClose(c: Connection, now: u64, dev: Device): Connection {
    if !c.closeRequested then c
    else if c.closeStarted != 0 && U64(now - c.closeStarted) >= CLOSE_TIMEOUT_MS then ResetStream(c)
    else
      var c1 := if c.closeStarted == 0 then c.(closeStarted := now) else c;
      if !Connected(c1) || c1.tx != [] || c1.pending != [] then c1
      else
        var (l, fin) := BeginClose(c1.l);
        var (c2, ok) := Send(c1.(l := l, closeRequested := false), fin, [], dev);
        if !ok then ResetStream(c2) else Remember(c2, now, fin, []).0
  }

  /** What one poll does for a listening endpoint before it looks at the device. */
  function Maintain(c: Connection, now: u64, dev: Device): Connection {
    var c1 := MaintainPending(c, now, dev);
    var c2 := MaintainClose(c1, now);
    var c3 := MaintainWindow(c2, dev);
    var c4 := Flush(c3, now, dev);
    MaintainStreamClose(c4, now, dev)
  }

  /** `enqueue_stream_receive`: bytes beyond the capacity of the ring are dropped. */
  function Enqueue(rx: ReceiveRing, payload: seq<byte>): ReceiveRing {
    rx + payload[..Min(|payload|, RECEIVE_CAPACITY - |rx|)]
  }

  /** The endpoint after the connection machine took the segment: what is queued,
      which flags change, which timer starts. */
  function Deliver(c: Connection, before: Listener, f: Frame, now: u64): Connection {
    var advanced := c.l.acknowledgement != before.acknowledgement;
    c.(connections :=
         if (before.state == SynReceived || before.state == SynSent) && c.l.state == Established
         then U32(c.connections + 1) else c.connections,
       rx := if IsConnected(c.l.state) && f.payload != [] && advanced
             then Enqueue(c.rx, f.payload) else c.rx,
       peerClosed := c.peerClosed || (HasFin(f.segment.flags) && advanced),
       timeWaitStarted := if c.l.state == TimeWait && before.state != TimeWait
                          then now else c.timeWaitStarted)
  }

  function Respond(c: Connection, reply: Segment, now: u64, dev: Device): Connection {
    var (c1, ok) := Send(c, reply, [], dev);
    if !ok then c1
    else
      var c2 := if reply.flags == SYN + ACK && c1.pending == []
                then Remember(c1, now, reply, []).0 else c1;
      Flush(c2, now, dev)
  }

  function AcknowledgeFor(c: Connection, s: Segment, now: u64): Connection {
    if HasAck(s.flags) then Acknowledge(c, now, s.acknowledgement) else c
  }

  /** What the poll does with the verdict `r` of the connection machine. */
  function Settle(c: Connection, r: Received, f: Frame, now: u64, dev: Device): Connection {
    var c1 := c.(l := r.listener);
    if !r.ok then c1
    else
      var c2 := AcknowledgeFor(c1, f.segment, now);
      if c.l.state != Listen && c2.l.state == Listen then ResetStream(c2)
      else Respond(Deliver(c2, c.l, f, now), r.reply, now, dev)
  }

  /** A segment that matches the connection and may be looked at. */
  function Accept(c: Connection, f: Frame, now: u64, dev: Device): Connection {
    Settle(c, Receive(c.l, f.segment), f, now, dev)
  }

  predicate TooLong(c: Connection, f: Frame) {
    |f.payload| > Window(c) && f.segment.sequence == c.l.acknowledgement
  }

  /** A new SYN for a connection that is going away makes room for it. */
  function GiveWay(c: Connection, s: Segment): Connection {
    if (IsClosing(c.l.state) || c.l.state == TimeWait || c.closeRequested) &&
       HasSyn(s.flags) && !Matches(c.l, s)
    then ResetStream(c) else c
  }

  /** A decoded frame whose destination port is this endpoint's. */
  function Arrive(c0: Connection, f: Frame, now: u64, dev: Device): Connection {
    var c := GiveWay(c0, f.segment);
    if !Matches(c.l, f.segment) then c
    else if TooLong(c, f) then Send(c, CurrentAck(c), [], dev).0
    else Accept(c, f, now, dev)
  }

  // ----- the stream interface of the applications

  function ReadCount(c: Connection, capacity: nat): nat {
    Min(capacity, |c.rx|)
  }

  function Read(c: Connection, capacity: nat): Connection {
    c.(rx := c.rx[ReadCount(c, capacity)..],
       windowChanged := c.windowChanged || ReadCount(c, capacity) != 0)
  }

  predicate CanWrite(c: Connection, data: seq<byte>) {
    Connected(c) && |data| <= TRANSMIT_CAPACITY - |c.tx|
  }

  function Write(c: Connection, data: seq<byte>): Connection {
    if CanWrite(c, data) then c.(tx := c.tx + data) else c
  }

  function Close(c: Connection): Connection {
    if Connected(c) then c.(closeRequested := true) else c
  }

  // ----- runs

  /** `now` is the clock during maintenance, `late` the clock when the frame is handled. */
  datatype Event =
    | ReadEvent(capacity: nat)
    | WriteEvent(data: seq<byte>)
    | CloseEvent
    | PollEvent(now: u64, late: u64, arrival: Option<Frame>)

  function Poll(c: Connection, now: u64, late: u64, arrival: Option<Frame>, dev: Device): Connection {
    var c1 := Maintain(c, now, dev);
    match arrival
    case None => c1
    case Some(f) => Arrive(c1, f, late, dev)
  }

  function Step(c: Connection, e: Event, dev: Device): Connection {
    match e
    case ReadEvent(capacity) => Read(c, capacity)
    case WriteEvent(data) => Write(c, data)
    case CloseEvent => Close(c)
    case PollEvent(now, late, arrival) => Poll(c, now, late, arrival, dev)
  }
}
