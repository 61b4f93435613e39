/** Why the network may only deliver frames of the present connection. */
module TcpStaleFrames {
  import opened Words
  import opened Wrappers
  import opened TcpListener
  import opened TcpConnection
  import opened TcpProgress
  import opened TcpConversation
  import opened TcpGoodbye
  import opened TcpSending
  import opened TcpSafety
  import TcpArrival
  import TcpDelivery
  import TcpPeerClosed

  // Successive connections of an endpoint have initial sequence numbers one apart, so the
  // second data byte of one connection has the number of the first data byte of the next.

  /** A connection on which `data` was exchanged. */
  function FirstConnection(a: Connection, b: Connection, local: Address, port: u16, peer: Address, data: seq<byte>,
                           now: u64, da: Device, db: Device): (Connection, Connection)
  {
    var (a1, b1) := Handshake(a, b, local, port, peer, now, da, db);
    Exchange(a1, b1, data, now, now, da, db)
  }

  /** A RST from the peer of `c`. */
  function RstFor(c: Connection): Frame {
    Frame(Segment(c.l.peer, c.l.local, c.l.peerPort, c.l.port, 0, 0, RST, 0, 0, 0), [])
  }

  lemma RstResets(c: Connection, now: u64, dev: Device)
    requires c.l.state != Listen
    ensures Arrive(c, RstFor(c), now, dev) == ResetStream(c)
  {
  }

  /** Each end hears a RST, and they connect again over the same ports. */
  function NextConnection(a: Connection, b: Connection, local: Address, port: u16, peer: Address,
                          now: u64, da: Device, db: Device): (Connection, Connection)
  {
    Handshake(Arrive(a, RstFor(a), now, da), Arrive(b, RstFor(b), now, db), local, port, peer, now, da, db)
  }

  lemma FirstLeaves(a: Connection, b: Connection, local: Address, port: u16, peer: Address, data: seq<byte>,
                    now: u64, da: Device, db: Device)
    requires Idle(a) && Idle(b) && TakesAll(da) && TakesAll(db) && 1 <= |data| <= 2
    ensures var (c, d) := FirstConnection(a, b, local, port, peer, data, now, da, db);
            && Still(c) && Still(d) && Facing(c, d) && c.rx == [] && c.l.peerMss >= 2 && c.l.peerWindow >= 2
            && c.l.local == local && c.l.port == port && c.l.peer == peer && c.l.peerPort == d.l.port == b.l.port
            && c.l.sequence == U32(U32(U32(0x4152_4000 + a.connections) + 1) + |data|)
            && d.l.sequence == U32(b.l.sequence + 1)
            && c.connections == U32(a.connections + 1) && d.connections == U32(b.connections + 1)
            && c.closeStarted == a.closeStarted && d.wire != [] && Last(d).payload == []
            && Last(d).segment == Segment(peer, local, b.l.port, port, d.l.sequence, d.l.acknowledgement,
                                          ACK, Window(d), 0, 0)
  {
    hide Handshake, Exchange, U32, TakesAll, Idle;
    HandshakeConnects(a, b, local, port, peer, now, da, db);
    var (a1, b1) := Handshake(a, b, local, port, peer, now, da, db);
    assert ReadyFor(a1, b1, |data|);
    ExchangeDelivers(a1, b1, data, now, now, da, db);
  }

  /** The second connection between two ends, however the first one ended. */
  lemma NextOpens(a: Connection, b: Connection, c: Connection, d: Connection, local: Address, port: u16, peer: Address,
                  now: u64, da: Device, db: Device)
    requires c.l.state != Listen && d.l.state != Listen && c.lastWindow != 0 && d.lastWindow != 0
    requires c.rtt.timeout > 0 && d.rtt.timeout > 0 && TakesAll(da) && TakesAll(db)
    requires c.connections == U32(a.connections + 1) && d.connections == U32(b.connections + 1)
    requires b.l.sequence == U32(0x4152_0000 + b.connections)
    ensures var (a2, b2) := NextConnection(c, d, local, port, peer, now, da, db);
            && ReadyFor(a2, b2, CHUNK) && a2.rx == [] && b2.rx == []
            && a2.l.local == local && a2.l.port == port && a2.l.peer == peer && a2.l.peerPort == d.l.port
            && a2.l.sequence == U32(U32(U32(0x4152_4000 + a.connections) + 1) + 1)
            && b2.l.sequence == U32(U32(b.l.sequence + 1) + 1)
  {
    hide Handshake, Arrive, U32, TakesAll;
    RstResets(c, now, da);
    RstResets(d, now, db);
    HandshakeConnects(ResetStream(c), ResetStream(d), local, port, peer, now, da, db);
    SecondNumbers(a.connections, b.connections);
  }

  lemma SecondNumbers(n: u32, m: u32)
    ensures U32(U32(0x4152_4000 + U32(n + 1)) + 1) == U32(U32(U32(0x4152_4000 + n) + 1) + 1)
    ensures U32(U32(0x4152_0000 + U32(m + 1)) + 1) == U32(U32(U32(0x4152_0000 + m) + 1) + 1)
  {
    hide U32;
    U32Add(n + 1, 0x4152_4000);
    U32Add(0x4152_4000 + n, 1);
    U32Add(m + 1, 0x4152_0000);
    U32Add(0x4152_0000 + m, 1);
  }

  lemma JustBehind(word: u32)
    ensures !TcpListener.After(word, U32(word + 1))
  {
    BeforeIsTrueOrder(word + 1, word);
    U32Near(word);
  }

  lemma TakesStale(b: Connection, f: Frame, now: u64, dev: Device)
    requires Still(b) && b.rx == [] && Matches(b.l, f.segment) && f.segment.flags == ACK + PSH
    requires |f.payload| == 1 == f.segment.length && f.segment.sequence == b.l.acknowledgement
    requires U32(f.segment.acknowledgement + 1) == b.l.sequence
    ensures Poll(b, now, now, Some(f), dev).rx == f.payload
  {
    hide Maintain, Accept, Matches;
    StillMaintain(b, now, dev);
    var c := b.(windowChanged := false);
    TcpArrival.FreshKeeps(c, |c.wire|);
    JustBehind(f.segment.acknowledgement);
    TcpDelivery.AcceptReceives(c, FreshLog(c, |c.wire|), f, now, dev);
    assert [] + f.payload == f.payload;
  }

  /** Stale data.  A segment of an earlier connection is taken for data of the present one:
      the server reads a byte that the client never wrote on this connection. */
  lemma StaleFrameIsHeard(a: Connection, b: Connection, local: Address, port: u16, peer: Address, x: byte, y: byte,
                          now: u64, da: Device, db: Device)
    requires Idle(a) && Idle(b) && TakesAll(da) && TakesAll(db)
    requires b.l.sequence == U32(0x4152_0000 + b.connections)
    ensures var (a1, b1) := FirstConnection(a, b, local, port, peer, [x], now, da, db);
            var delayed := Maintain(Write(a1, [y]), now, da);
            var (a2, b2) := NextConnection(delayed, b1, local, port, peer, now, da, db);
            && delayed.wire != [] && Still(a2) && b2.rx == []
            && Poll(b2, now, now, Some(Last(delayed)), db).rx == [y]
  {
    hide FirstConnection, NextConnection, Maintain, Poll, U32, TakesAll, Idle, Write;
    FirstLeaves(a, b, local, port, peer, [x], now, da, db);
    var (a1, b1) := FirstConnection(a, b, local, port, peer, [x], now, da, db);
    WriteThenPoll(a1, [y], now, da);
    var q := a1.(tx := [y], windowChanged := false);
    var delayed := Sent(q, now);
    assert Last(delayed) == OnWire(q, DataSegment(q, 1), [y]);
    NextOpens(a, b, delayed, b1, local, port, peer, now, da, db);
    var (a2, b2) := NextConnection(delayed, b1, local, port, peer, now, da, db);
    TakesStale(b2, Last(delayed), now, db);
  }

  /** Stale FIN.  The end of an earlier connection is taken for the end of the present one:
      the server's application is told that the client is done, while the client is open
      and can still write. */
  lemma StaleFinIsHeard(a: Connection, b: Connection, local: Address, port: u16, peer: Address, x: byte,
                        now: u64, da: Device, db: Device)
    requires Idle(a) && Idle(b) && TakesAll(da) && TakesAll(db) && a.closeStarted == 0
    requires b.l.sequence == U32(0x4152_0000 + b.connections)
    ensures var (a1, b1) := FirstConnection(a, b, local, port, peer, [x], now, da, db);
            var closing := Maintain(Close(a1), now, da);
            var (a2, b2) := NextConnection(closing, b1, local, port, peer, now, da, db);
            && closing.wire != [] && Still(a2) && b2.l.state == Established
            && var d := Poll(b2, now, now, Some(Last(closing)), db);
               d.generation == b2.generation && d.l.state == CloseWait && d.peerClosed
  {
    hide FirstConnection, NextConnection, Maintain, Poll, U32, TakesAll, Idle, Close;
    FirstLeaves(a, b, local, port, peer, [x], now, da, db);
    var (a1, b1) := FirstConnection(a, b, local, port, peer, [x], now, da, db);
    CloseSendsFin(a1, now, da);
    var closing := FinSent(a1, now);
    FinFrame(a1, now);
    NextOpens(a, b, closing, b1, local, port, peer, now, da, db);
    var (a2, b2) := NextConnection(closing, b1, local, port, peer, now, da, db);
    EndsStale(b2, Last(closing), now, db);
  }

  lemma FinFrame(c: Connection, now: u64)
    requires Drained(c) && c.rx == []
    ensures var d := FinSent(c, now);
            && d.wire != [] && d.l.state != Listen && d.lastWindow != 0 && d.rtt == c.rtt && d.connections == c.connections
            && Last(d).payload == []
            && Last(d).segment == Segment(c.l.local, c.l.peer, c.l.port, c.l.peerPort, c.l.sequence, c.l.acknowledgement,
                                          FIN + ACK, Last(d).segment.window, 0, 0)
  {
    hide U32, PendingFor;
  }

  lemma EndsStale(b: Connection, f: Frame, now: u64, dev: Device)
    requires Still(b) && Matches(b.l, f.segment) && f.segment.flags == FIN + ACK
    requires f.payload == [] && f.segment.length == 0 && f.segment.sequence == b.l.acknowledgement
    requires U32(f.segment.acknowledgement + 1) == b.l.sequence
    ensures var d := Poll(b, now, now, Some(f), dev);
            d.generation == b.generation && d.l.state == CloseWait && d.peerClosed
  {
    hide Maintain, Accept, Matches;
    StillMaintain(b, now, dev);
    var c := b.(windowChanged := false);
    TcpArrival.FreshKeeps(c, |c.wire|);
    JustBehind(f.segment.acknowledgement);
    TcpDelivery.AcceptReceives(c, FreshLog(c, |c.wire|), f, now, dev);
    TcpPeerClosed.AcceptFlag(c, f, now, dev);
  }

  /** Stale ACK.  The acknowledgement of an earlier connection releases a byte of the present
      one: the segment of `z` was lost, and yet nothing of it is left to be sent again.  The
      history counts `z` as acknowledged, and the server has nothing. */
  lemma StaleAckReleases(a: Connection, b: Connection, local: Address, port: u16, peer: Address,
                         x: byte, y: byte, z: byte, now: u64, da: Device, db: Device)
    requires Idle(a) && Idle(b) && TakesAll(da) && TakesAll(db)
    requires b.l.sequence == U32(0x4152_0000 + b.connections)
    ensures var (a1, b1) := FirstConnection(a, b, local, port, peer, [x, y], now, da, db);
            var (a2, b2) := NextConnection(a1, b1, local, port, peer, now, da, db);
            && b1.wire != []
            && var (d, h) := LosesByte(a2, z, Last(b1), now, da);
               && d.generation == a2.generation && Connected(d) && d.tx == [] && d.pending == []
               && h.written == [z] && h.acked == 1 && b2.rx == []
  {
    hide FirstConnection, NextConnection, LosesByte, U32, TakesAll, Idle;
    FirstLeaves(a, b, local, port, peer, [x, y], now, da, db);
    var (a1, b1) := FirstConnection(a, b, local, port, peer, [x, y], now, da, db);
    NextOpens(a, b, a1, b1, local, port, peer, now, da, db);
    var (a2, b2) := NextConnection(a1, b1, local, port, peer, now, da, db);
    TwoAhead(U32(U32(0x4152_4000 + a.connections) + 1));
    NextDiffers(b1.l.sequence);
    ByteIsLost(a2, z, Last(b1), now, da);
  }

  /** `z` is written, sent and lost; then `f` arrives. */
  function LosesByte(c: Connection, z: byte, f: Frame, now: u64, dev: Device): (Connection, Log) {
    var g := FreshLog(c, |c.wire|);
    var e0, e1, e2 := WriteEvent([z]), PollEvent(now, now, None), PollEvent(now, now, Some(f));
    var c1, g1 := Step(c, e0, dev), LogStep(g, c, e0, dev);
    var c2, g2 := Step(c1, e1, dev), LogStep(g1, c1, e1, dev);
    (Step(c2, e2, dev), LogStep(g2, c2, e2, dev))
  }

  lemma TwoAhead(word: u32)
    ensures U32(word + 2) == U32(U32(word + 1) + 1)
  {
    U32Add(word + 1, 1);
  }

  lemma ByteIsLost(c: Connection, z: byte, f: Frame, now: u64, dev: Device)
    requires Still(c) && c.rx == [] && c.l.peerMss >= 1 && c.l.peerWindow >= 1 && TakesAll(dev)
    requires Matches(c.l, f.segment) && f.segment.flags == ACK && f.payload == [] && f.segment.length == 0
    requires f.segment.acknowledgement == U32(c.l.sequence + 1) && f.segment.sequence != c.l.acknowledgement
    ensures var (d, h) := LosesByte(c, z, f, now, dev);
            && d.generation == c.generation && Connected(d) && d.tx == [] && d.pending == []
            && h.written == [z] && h.acked == 1
  {
    hide Maintain, Arrive, LogArrive, U32, TakesAll, Inv;
    var g := FreshLog(c, |c.wire|);
    TcpArrival.FreshKeeps(c, |c.wire|);
    TcpArrival.WriteKeeps(c, g, [z]);
    var c1, g1 := Write(c, [z]), g.(written := [] + [z]);
    WriteThenPoll(c, [z], now, dev);
    MaintainKeeps(c1, g1, now, dev);
    var q := c.(tx := [z], windowChanged := false);
    var c2 := Sent(q, now);
    SentRests(q, now);
    RestsMaintain(c2, now, dev);
    TcpArrival.ArriveKeeps(c2, g1, f, now, dev);
    AckReleasesAll(c2, f, now, dev);
    AllAcked(Arrive(c2, f, now, dev), LogArrive(g1, c2, f, now, dev), g1, c2, f, now, dev);
  }

  lemma SentRests(q: Connection, now: u64)
    requires |q.tx| == 1 && q.l.peerWindow >= 1 && Still(q.(tx := [])) && !q.windowChanged && q.rx == []
    ensures var c := Sent(q, now);
            && Waits(c, now) && Rests(c, now) && c.rtt.timeout > 0 && c.rx == [] && c.generation == q.generation
            && c.l == q.l.(sequence := U32(q.l.sequence + 1), peerWindow := q.l.peerWindow - 1)
  {
    hide U32, OnWire;
  }

  /** An acknowledgement out of order still releases what it covers. */
  lemma AckReleasesAll(c: Connection, f: Frame, now: u64, dev: Device)
    requires Waits(c, now) && c.rtt.timeout > 0 && TakesAll(dev)
    requires Matches(c.l, f.segment) && f.segment.flags == ACK && f.payload == [] && f.segment.length == 0
    requires f.segment.acknowledgement == c.l.sequence && f.segment.sequence != c.l.acknowledgement
    ensures TakesAck(c, f)
    ensures var d := Arrive(c, f, now, dev);
            d.generation == c.generation && d.l.state == Established && d.tx == [] && d.pending == []
  {
    hide Receive, AcknowledgeFor, Respond, U32;
    ReceivesOutOfOrder(c.l, f.segment);
    var l := c.l.(peerWindow := f.segment.window);
    var reply := ReplyWith(EmptyReply(f.segment), l, ACK);
    ReleasesOne(c.(l := l), f.segment, now);
    var released := AcknowledgeFor(c.(l := l), f.segment, now);
    assert Arrive(c, f, now, dev) == Respond(released, reply, now, dev);
    AcksAtOnce(released, reply, now, dev);
  }

  /** With nothing queued and nothing in flight, everything written counts as acknowledged. */
  lemma AllAcked(d: Connection, h: Log, g: Log, c: Connection, f: Frame, now: u64, dev: Device)
    requires Inv(d, h) && Connected(d) && d.tx == [] && d.pending == [] && TakesAck(c, f)
    requires h == LogArrive(g, c, f, now, dev)
    ensures h.written == g.written && h.acked == |h.written|
  {
    hide Inv, Arrive, NewlyAcked, Accounted, U32, HasRst, InWindowAck;
    ConnectedFits(d, h);
    assert TcpSending.Bytes([]) == [];
    assert |h.written[h.acked..]| == 0;
  }

  /** Which frames are heard, wherever they come from: as long as the connection lasts, its
      ring changes exactly when it is ESTABLISHED and the frame is of its tuple, carries no
      RST, acknowledges nothing unsent, fits the window and has payload at the expected
      sequence number.  No connection is told apart from an earlier one. */
  lemma HeardIff(c: Connection, g: Log, f: Frame, now: u64, dev: Device)
    requires Inv(c, g) && Live(c) && Decoded(f)
    ensures var d := Arrive(c, f, now, dev);
            var heard := c.l.state == Established && TakesAck(c, f) &&
                         f.segment.sequence == c.l.acknowledgement && f.payload != [];
            d.generation == c.generation ==>
              (d.rx != c.rx <==> heard) && (heard ==> d.rx == c.rx + f.payload)
  {
    hide Inv, Accept, Send;
    if TakesAck(c, f) {
      TcpDelivery.AcceptReceives(c, g, f, now, dev);
    } else {
      TcpDelivery.ArriveHolds(c, f, now, dev);
    }
  }
}
