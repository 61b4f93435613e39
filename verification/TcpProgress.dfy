/** What is written arrives, when nothing is lost. */
module TcpProgress {
  import opened Words
  import opened Wrappers
  import opened TcpListener
  import opened TcpConnection
  import TcpSending

  // Safety alone would hold of a stack that never sends.  Here the two endpoints run
  // against each other over a device that takes every frame and a network that delivers
  // each once, and every byte written is read.

  const CHUNK := 256

  /** Established, with nothing queued, in flight or requested. */
  predicate Still(c: Connection) {
    && c.l.state == Established && c.tx == [] && c.pending == []
    && !c.closeRequested && !c.windowUpdate && c.lastWindow != 0 && c.rtt.timeout > 0
  }

  /** The ends of one connection that agree on both streams. */
  predicate Facing(a: Connection, b: Connection) {
    && a.l.local == b.l.peer && a.l.peer == b.l.local && a.l.port == b.l.peerPort && a.l.peerPort == b.l.port
    && a.l.sequence == b.l.acknowledgement && b.l.sequence == a.l.acknowledgement
  }

  /** The frame that went out last. */
  function Last(c: Connection): Frame
    requires c.wire != []
  {
    c.wire[|c.wire| - 1]
  }

  predicate Takes(dev: Device, n: nat) {
    dev(n)
  }

  ghost predicate TakesAll(dev: Device) {
    forall n: nat :: Takes(dev, n)
  }

  // ----- the sender

  lemma StillMaintain(c: Connection, now: u64, dev: Device)
    requires Still(c)
    ensures Maintain(c, now, dev) == c.(windowChanged := false)
  {
  }

  /** The endpoint after its whole queue went out in one segment. */
  function Sent(c: Connection, now: u64): Connection
    requires |c.tx| <= c.l.peerWindow
  {
    var n := |c.tx|;
    var s := DataSegment(c, n);
    c.(offers := c.offers + 1, wire := c.wire + [OnWire(c, s, c.tx)], lastWindow := Window(c),
       pending := [PendingFor(c, now, s, c.tx)], tx := [],
       l := c.l.(sequence := U32(c.l.sequence + n), peerWindow := c.l.peerWindow - n))
  }

  predicate SendsAtOnce(c: Connection) {
    && c.pending == [] && c.tx != []
    && |c.tx| <= PENDING_PAYLOAD && |c.tx| <= c.l.peerMss && |c.tx| <= c.l.peerWindow
  }

  lemma FlushesAll(c: Connection, now: u64, dev: Device)
    requires SendsAtOnce(c) && TakesAll(dev)
    ensures FlushLoop(c, now, dev) == Sent(c, now)
  {
    hide OnWire, PendingFor;
    var n := |c.tx|;
    assert Takes(dev, c.offers) && ChunkLength(c) == n;
    assert c.tx[..n] == c.tx && c.tx[n..] == [];
    var s := DataSegment(c, n);
    var c1 := Send(c, s, c.tx, dev).0;
    assert c1.pending + [PendingFor(c1, now, s, c.tx)] == [PendingFor(c, now, s, c.tx)] by {
      SameTimeout(c, c1, now, s, c.tx);
    }
    assert Advance(c1.(pending := [PendingFor(c, now, s, c.tx)]), n) == Sent(c, now);
  }

  lemma SameTimeout(c: Connection, d: Connection, now: u64, s: Segment, payload: seq<byte>)
    requires c.rtt == d.rtt
    ensures PendingFor(c, now, s, payload) == PendingFor(d, now, s, payload)
  {
  }

  /** Written data goes out at the next poll. */
  lemma WriteThenPoll(a: Connection, data: seq<byte>, now: u64, dev: Device)
    requires |data| <= TRANSMIT_CAPACITY && Still(a) && TakesAll(dev) && SendsAtOnce(a.(tx := data))
    ensures Maintain(Write(a, data), now, dev) == Sent(a.(tx := data, windowChanged := false), now)
  {
    hide FlushLoop, Sent, Send;
    assert [] + data == data;
    FlushesAll(a.(tx := data, windowChanged := false), now, dev);
    SentClosesNothing(a.(tx := data, windowChanged := false), now);
  }

  lemma SentClosesNothing(c: Connection, now: u64)
    requires |c.tx| <= c.l.peerWindow
    ensures Sent(c, now).closeRequested == c.closeRequested
  {
  }

  // ----- the receiver

  /** The endpoint after it took `payload` in order and acknowledged it. */
  function Took(b: Connection, f: Frame): Connection
    requires |f.payload| <= Window(b)
  {
    var l := b.l.(peerWindow := f.segment.window, acknowledgement := U32(b.l.acknowledgement + |f.payload|));
    var c := b.(l := l, rx := b.rx + f.payload, windowChanged := false);
    var reply := ReplyWith(EmptyReply(f.segment), l, ACK);
    c.(offers := c.offers + 1, wire := c.wire + [OnWire(c, reply, [])], lastWindow := Window(c))
  }

  predicate InOrderData(b: Connection, f: Frame) {
    && f.segment.source == b.l.peer && f.segment.destination == b.l.local
    && f.segment.sourcePort == b.l.peerPort && f.segment.destinationPort == b.l.port
    && f.segment.flags == ACK + PSH && f.segment.length == |f.payload|
    && f.segment.sequence == b.l.acknowledgement && f.segment.acknowledgement == b.l.sequence
    && 0 < |f.payload| <= Window(b)
  }

  lemma ReceivesData(l: Listener, s: Segment)
    requires l.state == Established && Matches(l, s) && s.flags == ACK + PSH && 0 < s.length <= 1024
    requires s.sequence == l.acknowledgement && s.acknowledgement == l.sequence
    ensures var k := l.(peerWindow := s.window, acknowledgement := U32(l.acknowledgement + s.length));
            Receive(l, s) == Received(true, k, ReplyWith(EmptyReply(s), k, ACK))
  {
  }

  /** A data segment that fits is queued and acknowledged in one poll. */
  lemma PollTakes(b: Connection, f: Frame, now: u64, late: u64, dev: Device)
    requires Still(b) && InOrderData(b, f) && TakesAll(dev)
    ensures Poll(b, now, late, Some(f), dev) == Took(b, f)
  {
    hide Arrive, Maintain, OnWire;
    StillMaintain(b, now, dev);
    ArriveTakes(b.(windowChanged := false), f, late, dev);
  }

  lemma ArriveTakes(c: Connection, f: Frame, late: u64, dev: Device)
    requires Still(c) && InOrderData(c, f) && TakesAll(dev) && !c.windowChanged
    ensures Arrive(c, f, late, dev) == Took(c, f)
  {
    hide Receive, OnWire, Respond, Settle, Arrive, Matches;
    LooksAtData(c, f, late, dev);
    ReceivesData(c.l, f.segment);
    var l := c.l.(peerWindow := f.segment.window, acknowledgement := U32(c.l.acknowledgement + |f.payload|));
    var reply := ReplyWith(EmptyReply(f.segment), l, ACK);
    SettlesData(c, l, reply, f, late, dev);
    AcksAtOnce(c.(l := l, rx := c.rx + f.payload), reply, late, dev);
  }

  lemma LooksAtData(c: Connection, f: Frame, late: u64, dev: Device)
    requires Still(c) && InOrderData(c, f)
    ensures Matches(c.l, f.segment) && Arrive(c, f, late, dev) == Settle(c, Receive(c.l, f.segment), f, late, dev)
  {
    hide Receive, Settle;
  }

  lemma SettlesData(c: Connection, l: Listener, reply: Segment, f: Frame, late: u64, dev: Device)
    requires Still(c) && InOrderData(c, f)
    requires l == c.l.(peerWindow := f.segment.window, acknowledgement := U32(c.l.acknowledgement + |f.payload|))
    ensures Settle(c, Received(true, l, reply), f, late, dev)
            == Respond(c.(l := l, rx := c.rx + f.payload), reply, late, dev)
  {
    hide Respond, AcknowledgeFor, Deliver, U32;
    TcpSending.NothingToRelease(c.(l := l), f.segment, late);
    DeliversPayload(c, l, f, late);
  }

  lemma DeliversPayload(c: Connection, l: Listener, f: Frame, now: u64)
    requires c.l.state == Established && InOrderData(c, f)
    requires l == c.l.(peerWindow := f.segment.window, acknowledgement := U32(c.l.acknowledgement + |f.payload|))
    ensures Deliver(c.(l := l), c.l, f, now) == c.(l := l, rx := c.rx + f.payload)
  {
    Advances(c.l.acknowledgement, |f.payload|);
    assert f.payload[..|f.payload|] == f.payload;
  }

  /** A plain acknowledgement goes out, and there is nothing to flush. */
  lemma AcksAtOnce(d: Connection, reply: Segment, now: u64, dev: Device)
    requires TakesAll(dev) && d.tx == [] && reply.flags == ACK
    requires reply.sourcePort == d.l.port && reply.destinationPort == d.l.peerPort
    ensures Respond(d, reply, now, dev)
            == d.(offers := d.offers + 1, wire := d.wire + [OnWire(d, reply, [])], lastWindow := Window(d))
  {
    hide OnWire;
    assert Takes(dev, d.offers);
  }

  lemma Advances(word: u32, n: nat)
    requires 0 < n <= RECEIVE_CAPACITY
    ensures U32(word + n) != word
  {
  }

  // ----- the acknowledgement comes back

  lemma ReceivesAck(l: Listener, s: Segment)
    requires l.state == Established && Matches(l, s) && s.flags == ACK && s.length == 0
    requires s.sequence == l.acknowledgement && s.acknowledgement == l.sequence
    ensures Receive(l, s) == Received(true, l.(peerWindow := s.window), EmptyReply(s))
  {
    U32Near(l.acknowledgement);
  }

  /** A segment that is not next is answered with what is expected. */
  lemma ReceivesOutOfOrder(l: Listener, s: Segment)
    requires l.state == Established && Matches(l, s) && (s.flags == ACK || s.flags == ACK + PSH)
    requires s.acknowledgement == l.sequence && s.sequence != l.acknowledgement
    ensures InWindowAck(l, s)
    ensures var k := l.(peerWindow := s.window);
            Receive(l, s) == Received(true, k, ReplyWith(EmptyReply(s), k, ACK))
  {
    U32Near(0);
  }

  predicate AcksAll(a: Connection, f: Frame) {
    && f.segment.source == a.l.peer && f.segment.destination == a.l.local
    && f.segment.sourcePort == a.l.peerPort && f.segment.destinationPort == a.l.port
    && f.segment.flags == ACK && f.payload == [] && f.segment.length == 0
    && f.segment.sequence == a.l.acknowledgement && f.segment.acknowledgement == a.l.sequence
  }

  /** One segment in flight, just sent. */
  predicate Waits(a: Connection, now: u64) {
    && a.l.state == Established && a.tx == [] && |a.pending| == 1 && !a.closeRequested && !a.windowUpdate
    && !a.windowChanged && a.lastWindow != 0
    && a.pending[0].sentAt == now && a.pending[0].timeout > 0 && a.pending[0].expected == a.l.sequence
  }

  /** Nothing for maintenance to do: no data, no close, and a segment in flight at most
      that was just sent. */
  predicate Rests(a: Connection, now: u64) {
    && a.tx == [] && |a.pending| <= 1 && !a.closeRequested && !a.windowUpdate && !a.windowChanged
    && !IsClosing(a.l.state) && a.l.state != TimeWait
    && (a.pending != [] ==> a.pending[0].sentAt == now && a.pending[0].timeout > 0)
  }

  lemma RestsMaintain(a: Connection, now: u64, dev: Device)
    requires Rests(a, now)
    ensures Maintain(a, now, dev) == a
  {
    hide Send;
    U64Small(0);
    if a.pending != [] {
      assert !Expired(a.pending[0], now);
      assert MaintainPendingFrom(a, 1, now, dev) == a;
    }
    assert MaintainPendingFrom(a, 0, now, dev) == a;
  }

  lemma ReleasesOne(c: Connection, s: Segment, now: u64)
    requires |c.pending| == 1 && s.flags == ACK && s.acknowledgement == c.pending[0].expected && c.rtt.timeout > 0
    ensures var d := AcknowledgeFor(c, s, now);
            d == c.(pending := [], rtt := d.rtt) && d.rtt.timeout > 0
  {
    var p := c.pending[0];
    var rtt := if p.retransmissions == 0 && now >= p.sentAt then UpdateRoundTrip(c.rtt, now - p.sentAt) else c.rtt;
    assert c.pending[1..] == [];
    var d := c.(pending := [], rtt := rtt);
    assert Acknowledge(d, now, s.acknowledgement) == d;
    assert Acknowledge(c, now, s.acknowledgement) == d;
  }

  /** The acknowledgement releases the segment, and the endpoint is still again. */
  lemma PollReleases(a: Connection, f: Frame, now: u64, late: u64, dev: Device)
    requires Waits(a, now) && AcksAll(a, f) && a.rtt.timeout > 0
    ensures var d := Poll(a, now, late, Some(f), dev);
            Still(d) && d == a.(l := a.l.(peerWindow := f.segment.window), pending := [], rtt := d.rtt)
  {
    hide Receive, Maintain;
    RestsMaintain(a, now, dev);
    ReceivesAck(a.l, f.segment);
    var c := a.(l := a.l.(peerWindow := f.segment.window));
    var released := AcknowledgeFor(c, f.segment, late);
    ReleasesOne(c, f.segment, late);
    hide AcknowledgeFor;
    assert Arrive(a, f, late, dev) == Respond(released, EmptyReply(f.segment), late, dev);
  }

  // ----- one exchange

  /** Write at `a`, poll `a`, poll `b` with the segment, poll `a` with the acknowledgement. */
  function Exchange(a: Connection, b: Connection, data: seq<byte>, now: u64, late: u64, da: Device, db: Device)
    : (Connection, Connection)
  {
    var a1 := Maintain(Write(a, data), now, da);
    if a1.wire == [] then (a1, b)
    else
      var b1 := Poll(b, now, late, Some(a1.wire[|a1.wire| - 1]), db);
      if b1.wire == [] then (a1, b1)
      else (Poll(a1, now, late, Some(b1.wire[|b1.wire| - 1]), da), b1)
  }

  predicate ReadyFor(a: Connection, b: Connection, n: nat) {
    && Still(a) && Still(b) && Facing(a, b)
    && 0 < n <= PENDING_PAYLOAD && n <= a.l.peerMss && n <= a.l.peerWindow && n <= Window(b)
    && Window(a) != 0
  }

  /** One loss-free exchange moves the data into the peer's ring, in order and whole, and
      leaves both ends still and in agreement, with the true window known. */
  lemma ExchangeDelivers(a: Connection, b: Connection, data: seq<byte>, now: u64, late: u64, da: Device, db: Device)
    requires ReadyFor(a, b, |data|) && TakesAll(da) && TakesAll(db)
    ensures var (c, d) := Exchange(a, b, data, now, late, da, db);
            && d.rx == b.rx + data && c.rx == a.rx && Still(c) && Facing(c, d)
            && (Window(d) != 0 ==> Still(d)) && d.l.state == Established && d.l.peerWindow == Window(a)
            && c.l == a.l.(sequence := U32(a.l.sequence + |data|), peerWindow := Window(d))
            && c.connections == a.connections && d.connections == b.connections && d.l.port == b.l.port
            && c.closeStarted == a.closeStarted && d.wire != [] && Last(d).payload == []
            && Last(d).segment == Segment(a.l.peer, a.l.local, a.l.peerPort, a.l.port, d.l.sequence,
                                          d.l.acknowledgement, ACK, Window(d), 0, 0)
  {
    hide Maintain, Poll;
    WriteThenPoll(a, data, now, da);
    var q := a.(tx := data, windowChanged := false);
    var a1 := Sent(q, now);
    var f := OnWire(q, DataSegment(q, |data|), data);
    assert a1.wire[|a1.wire| - 1] == f;
    PollTakes(b, f, now, late, db);
    var b1 := Took(b, f);
    var g := b1.wire[|b1.wire| - 1];
    assert Window(b1) == Window(b) - |data|;
    PollReleases(a1, g, now, late, da);
  }

  // ----- a lost segment

  /** One data segment in flight whose timeout has run out. */
  predicate Overdue(a: Connection, now: u64) {
    && a.l.state == Established && a.tx == [] && |a.pending| == 1 && !a.closeRequested && !a.windowUpdate
    && !a.windowChanged && Expired(a.pending[0], now) && a.pending[0].retransmissions < MAX_RETRANSMISSIONS
    && IsSendable(a.pending[0].segment, a.pending[0].payload)
  }

  lemma OverdueIsResent(a: Connection, now: u64, dev: Device)
    requires Overdue(a, now) && TakesAll(dev)
    ensures var p := a.pending[0];
            var d := Maintain(a, now, dev);
            && d == a.(offers := a.offers + 1, wire := a.wire + [OnWire(a, p.segment, p.payload)],
                       pending := [Resent(p, now)], lastWindow := d.lastWindow)
            && (d.lastWindow == a.lastWindow || d.lastWindow == Window(a))
  {
    hide OnWire, Expired;
    assert Takes(dev, a.offers);
    var p := a.pending[0];
    var sent := Send(a, p.segment, p.payload, dev).0;
    var c := sent.(pending := sent.pending[0 := Resent(p, now)]);
    assert c.pending == [Resent(p, now)];
    assert MaintainPendingFrom(c, 1, now, dev) == c;
    assert MaintainPendingFrom(a, 0, now, dev) == c;
    assert Maintain(a, now, dev) == c;
  }

  /** If the segment of an exchange is lost, the first poll after the timeout sends it
      again and the peer takes it whole. */
  lemma LossIsRepaired(a: Connection, b: Connection, data: seq<byte>, now: u64, later: u64, late: u64,
                       da: Device, db: Device)
    requires ReadyFor(a, b, |data|) && TakesAll(da) && TakesAll(db)
    requires U64(later - now) >= a.rtt.timeout
    ensures var lost := Maintain(Write(a, data), now, da);
            var again := Maintain(lost, later, da);
            && |again.wire| == |lost.wire| + 1
            && Poll(b, later, late, Some(again.wire[|lost.wire|]), db).rx == b.rx + data
  {
    hide Maintain, Poll;
    WriteThenPoll(a, data, now, da);
    var q := a.(tx := data, windowChanged := false);
    var lost := Sent(q, now);
    var p := lost.pending[0];
    assert p == PendingFor(q, now, DataSegment(q, |data|), data);
    OverdueIsResent(lost, later, da);
    var f := OnWire(lost, p.segment, p.payload);
    PollTakes(b, f, later, late, db);
  }

  // ----- everything written is read

  /** The rest of the message goes through in chunks, and the reader empties its ring
      after each one. */
  function Transfer(a: Connection, b: Connection, data: seq<byte>, now: u64, late: u64, da: Device, db: Device)
    : (Connection, Connection, seq<byte>)
    decreases |data|
  {
    if data == [] then (a, b, [])
    else
      var n := Min(|data|, CHUNK);
      var (c, d) := Exchange(a, b, data[..n], now, late, da, db);
      var (x, y, more) := Transfer(c, Read(d, RECEIVE_CAPACITY), data[n..], now, late, da, db);
      (x, y, d.rx + more)
  }

  /** Liveness without loss: whatever is written at one end is read at the other, byte
      for byte and in order, for messages of any length. */
  lemma {:induction false} TransferDeliversAll(
    a: Connection, b: Connection, data: seq<byte>, now: u64, late: u64, da: Device, db: Device)
    requires ReadyFor(a, b, CHUNK) && b.rx == [] && TakesAll(da) && TakesAll(db)
    ensures var (c, d, got) := Transfer(a, b, data, now, late, da, db);
            got == data && ReadyFor(c, d, CHUNK) && d.rx == []
    decreases |data|
  {
    hide Exchange, Still, TakesAll;
    if data != [] {
      var n := Min(|data|, CHUNK);
      var part := data[..n];
      assert ReadyFor(a, b, n);
      ExchangeDelivers(a, b, part, now, late, da, db);
      var (c, d) := Exchange(a, b, part, now, late, da, db);
      assert d.rx == part by { assert [] + part == part; }
      var e := Read(d, RECEIVE_CAPACITY);
      ReadIsStill(d);
      assert e.rx == [];
      TransferDeliversAll(c, e, data[n..], now, late, da, db);
      assert data == part + data[n..];
    }
  }

  lemma ReadIsStill(d: Connection)
    requires Still(d)
    ensures Still(Read(d, RECEIVE_CAPACITY))
  {
  }
}
