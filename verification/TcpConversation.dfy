/** From two idle endpoints to a message that was read. */
module TcpConversation {
  import opened Words
  import opened Wrappers
  import opened TcpListener
  import opened TcpConnection
  import opened TcpHandshake
  import opened TcpProgress

  /** An endpoint before its first connection. */
  predicate Idle(c: Connection) {
    && c.l.state == Listen && c.rx == [] && c.tx == [] && c.pending == []
    && !c.closeRequested && !c.windowChanged && !c.windowUpdate && c.lastWindow != 0 && c.rtt.timeout > 0
  }

  // ----- the SYN

  lemma DialSends(a: Connection, local: Address, port: u16, peer: Address, peerPort: u16, now: u64, dev: Device)
    requires Idle(a) && TakesAll(dev)
    ensures var d := Dial(a, local, port, peer, peerPort, now, dev);
            var l := Connect(local, port, peer, peerPort, U32(0x4152_4000 + a.connections)).0;
            && Rests(d, now) && d.l == l && d.rx == [] && d.rtt == a.rtt && d.lastWindow != 0 && |d.pending| == 1
            && d.connections == a.connections && d.closeStarted == a.closeStarted && d.pending[0].expected == U32(l.sequence + 1) && d.wire != []
            && Last(d) == Frame(Segment(local, peer, port, peerPort, l.sequence, 0, SYN, RECEIVE_CAPACITY, LOCAL_MSS, 0), [])
  {
    assert Takes(dev, a.offers);
    var (l, syn) := Connect(local, port, peer, peerPort, U32(0x4152_4000 + a.connections));
    var c1 := Send(a.(l := l), syn, [], dev).0;
    assert c1.pending + [PendingFor(c1, now, syn, [])] == [PendingFor(c1, now, syn, [])];
  }

  // ----- the SYN-ACK

  predicate IsSyn(f: Frame, b: Connection) {
    && f.payload == [] && f.segment.flags == SYN && f.segment.length == 0 && f.segment.mss != 0
    && f.segment.destinationPort == b.l.port
  }

  function Answered(b: Connection, s: Segment): Listener {
    b.l.(peerWindow := s.window, local := s.destination, peer := s.source, peerPort := s.sourcePort,
         peerMss := s.mss, acknowledgement := U32(s.sequence + 1), state := SynReceived)
  }

  lemma SynIsReceived(b: Connection, f: Frame)
    requires Idle(b) && IsSyn(f, b)
    ensures var l := Answered(b, f.segment);
            Receive(b.l, f.segment) == Received(true, l, ReplyWith(EmptyReply(f.segment), l, SYN + ACK))
  {
  }

  lemma SynIsAnswered(b: Connection, f: Frame, now: u64, late: u64, dev: Device)
    requires Idle(b) && IsSyn(f, b) && TakesAll(dev)
    ensures var d := Poll(b, now, late, Some(f), dev);
            var s := f.segment;
            && d.l == Answered(b, s) && d.rx == [] && d.tx == [] && d.rtt == b.rtt && d.lastWindow != 0
            && d.connections == b.connections && d.closeStarted == b.closeStarted && !d.closeRequested && !d.windowChanged && !d.windowUpdate
            && |d.pending| == 1 && d.pending[0].sentAt == late && d.pending[0].timeout > 0
            && d.pending[0].expected == U32(d.l.sequence + 1) && d.wire != []
            && Last(d) == Frame(Segment(s.destination, s.source, s.destinationPort, s.sourcePort, d.l.sequence,
                                        d.l.acknowledgement, SYN + ACK, RECEIVE_CAPACITY, LOCAL_MSS, 0), [])
  {
    hide Receive, Maintain, Respond, Arrive, Answered, PendingFor, U32, TakesAll;
    RestsMaintain(b, now, dev);
    SynIsReceived(b, f);
    var l := Answered(b, f.segment);
    AnsweredFields(b, f.segment);
    var reply := ReplyWith(EmptyReply(f.segment), l, SYN + ACK);
    SettlesSyn(b, l, reply, f, late, dev);
    SynAckGoesOut(b.(l := l), reply, late, dev);
    SynAckPending(b.(l := l), late, reply);
  }

  lemma SynAckPending(c: Connection, now: u64, reply: Segment)
    requires reply.flags == SYN + ACK
    ensures var p := PendingFor(c, now, reply, []);
            p.sentAt == now && p.timeout == c.rtt.timeout && p.expected == U32(reply.sequence + 1)
  {
  }

  lemma AnsweredFields(b: Connection, s: Segment)
    ensures var l := Answered(b, s);
            l.state == SynReceived && l.port == b.l.port && l.peerPort == s.sourcePort && l.sequence == b.l.sequence
  {
  }

  lemma SettlesSyn(b: Connection, l: Listener, reply: Segment, f: Frame, late: u64, dev: Device)
    requires Idle(b) && IsSyn(f, b) && l.state == SynReceived
    requires Receive(b.l, f.segment) == Received(true, l, reply)
    ensures Arrive(b, f, late, dev) == Respond(b.(l := l), reply, late, dev)
  {
    hide Receive, Respond;
    var c := b.(l := l);
    assert AcknowledgeFor(c, f.segment, late) == c && Deliver(c, b.l, f, late) == c;
  }

  lemma SynAckGoesOut(c: Connection, reply: Segment, now: u64, dev: Device)
    requires c.l.state == SynReceived && c.pending == [] && c.rx == [] && TakesAll(dev) && reply.flags == SYN + ACK
    requires reply.sourcePort == c.l.port && reply.destinationPort == c.l.peerPort
    ensures Respond(c, reply, now, dev)
            == c.(offers := c.offers + 1, lastWindow := RECEIVE_CAPACITY, pending := [PendingFor(c, now, reply, [])],
                  wire := c.wire + [Frame(reply.(window := RECEIVE_CAPACITY, mss := LOCAL_MSS, length := 0), [])])
  {
    hide PendingFor;
    assert Takes(dev, c.offers);
    var c1 := Send(c, reply, [], dev).0;
    assert c1.pending + [PendingFor(c1, now, reply, [])] == [PendingFor(c, now, reply, [])] by {
      SameTimeout(c, c1, now, reply, []);
    }
  }

  // ----- the ACK

  predicate IsSynAck(f: Frame, a: Connection) {
    && f.payload == [] && f.segment.flags == SYN + ACK && f.segment.length == 0 && f.segment.mss != 0
    && f.segment.source == a.l.peer && f.segment.destination == a.l.local
    && f.segment.sourcePort == a.l.peerPort && f.segment.destinationPort == a.l.port
    && f.segment.acknowledgement == U32(a.l.sequence + 1)
  }

  function Completed(a: Connection, s: Segment): Listener {
    a.l.(peerWindow := s.window, sequence := U32(a.l.sequence + 1), acknowledgement := U32(s.sequence + 1),
         peerMss := s.mss, state := Established)
  }

  lemma SynAckIsReceived(a: Connection, f: Frame)
    requires a.l.state == SynSent && IsSynAck(f, a)
    ensures Matches(a.l, f.segment)
    ensures var l := Completed(a, f.segment);
            Receive(a.l, f.segment) == Received(true, l, ReplyWith(EmptyReply(f.segment), l, ACK))
  {
  }

  /** Waiting for the answer to a SYN or SYN-ACK. */
  predicate Opens(a: Connection, now: u64) {
    && Rests(a, now) && a.rx == [] && a.rtt.timeout > 0 && a.lastWindow != 0
    && |a.pending| == 1 && a.pending[0].expected == U32(a.l.sequence + 1)
  }

  lemma SynAckIsAcknowledged(a: Connection, f: Frame, now: u64, late: u64, dev: Device)
    requires Opens(a, now) && a.l.state == SynSent && IsSynAck(f, a) && TakesAll(dev)
    ensures var d := Poll(a, now, late, Some(f), dev);
            var s := f.segment;
            && Still(d) && d.l == Completed(a, s) && d.rx == [] && d.wire != []
            && d.connections == U32(a.connections + 1) && d.closeStarted == a.closeStarted
            && Last(d) == Frame(Segment(s.destination, s.source, s.destinationPort, s.sourcePort, d.l.sequence,
                                        d.l.acknowledgement, ACK, RECEIVE_CAPACITY, 0, 0), [])
  {
    hide Receive, Maintain, Respond, AcknowledgeFor;
    RestsMaintain(a, now, dev);
    SynAckIsReceived(a, f);
    var l := Completed(a, f.segment);
    var reply := ReplyWith(EmptyReply(f.segment), l, ACK);
    ReleasesHandshake(a.(l := l), f.segment, late);
    var c := AcknowledgeFor(a.(l := l), f.segment, late);
    var e := c.(connections := U32(c.connections + 1));
    assert Deliver(c, a.l, f, late) == e;
    assert Arrive(a, f, late, dev) == Respond(e, reply, late, dev);
    AcksAtOnce(e, reply, late, dev);
  }

  lemma ReleasesHandshake(c: Connection, s: Segment, now: u64)
    requires |c.pending| == 1 && HasAck(s.flags) && s.acknowledgement == c.pending[0].expected && c.rtt.timeout > 0
    ensures var d := AcknowledgeFor(c, s, now);
            d == c.(pending := [], rtt := d.rtt) && d.rtt.timeout > 0
  {
    ReleasesOne(c, s.(flags := ACK), now);
    hide Acknowledge;
  }

  // ----- the connection is open

  predicate IsLastAck(f: Frame, b: Connection) {
    && f.payload == [] && f.segment.flags == ACK && f.segment.length == 0
    && f.segment.source == b.l.peer && f.segment.destination == b.l.local
    && f.segment.sourcePort == b.l.peerPort && f.segment.destinationPort == b.l.port
    && f.segment.acknowledgement == U32(b.l.sequence + 1)
  }

  lemma LastAckIsReceived(b: Connection, f: Frame)
    requires b.l.state == SynReceived && IsLastAck(f, b)
    ensures Matches(b.l, f.segment)
    ensures Receive(b.l, f.segment)
            == Received(true, b.l.(peerWindow := f.segment.window, sequence := U32(b.l.sequence + 1), state := Established),
                        EmptyReply(f.segment))
  {
  }

  lemma LastAckOpens(b: Connection, f: Frame, now: u64, late: u64, dev: Device)
    requires Opens(b, now) && b.l.state == SynReceived && IsLastAck(f, b)
    ensures var d := Poll(b, now, late, Some(f), dev);
            && Still(d) && d.rx == [] && d.connections == U32(b.connections + 1) && d.closeStarted == b.closeStarted
            && d.l == b.l.(peerWindow := f.segment.window, sequence := U32(b.l.sequence + 1), state := Established)
  {
    hide Receive, Maintain, AcknowledgeFor, U32;
    RestsMaintain(b, now, dev);
    LastAckIsReceived(b, f);
    var l := b.l.(peerWindow := f.segment.window, sequence := U32(b.l.sequence + 1), state := Established);
    ReleasesHandshake(b.(l := l), f.segment, late);
    var c := AcknowledgeFor(b.(l := l), f.segment, late);
    var e := c.(connections := U32(c.connections + 1));
    assert Deliver(c, b.l, f, late) == e;
    assert Arrive(b, f, late, dev) == Respond(e, EmptyReply(f.segment), late, dev);
    assert Respond(e, EmptyReply(f.segment), late, dev) == e;
  }

  /** SYN, SYN-ACK, ACK: each frame handed over once, at one instant. */
  function Handshake(a: Connection, b: Connection, local: Address, port: u16, peer: Address, now: u64,
                     da: Device, db: Device): (Connection, Connection)
  {
    var a1 := Dial(a, local, port, peer, b.l.port, now, da);
    if a1.wire == [] then (a1, b)
    else
      var b1 := Poll(b, now, now, Some(Last(a1)), db);
      if b1.wire == [] then (a1, b1)
      else
        var a2 := Poll(a1, now, now, Some(Last(b1)), da);
        if a2.wire == [] then (a2, b1) else (a2, Poll(b1, now, now, Some(Last(a2)), db))
  }

  /** Two idle endpoints of this kernel open a connection that is ready for data in
      both directions. */
  lemma HandshakeConnects(a: Connection, b: Connection, local: Address, port: u16, peer: Address, now: u64,
                          da: Device, db: Device)
    requires Idle(a) && Idle(b) && TakesAll(da) && TakesAll(db)
    ensures var (c, d) := Handshake(a, b, local, port, peer, now, da, db);
            && ReadyFor(c, d, CHUNK) && ReadyFor(d, c, CHUNK) && c.rx == [] && d.rx == []
            && c.l.local == local && c.l.port == port && c.l.peer == peer && d.l.port == b.l.port
            && c.l.sequence == U32(U32(0x4152_4000 + a.connections) + 1) && d.l.sequence == U32(b.l.sequence + 1)
            && c.connections == U32(a.connections + 1) && d.connections == U32(b.connections + 1)
            && c.closeStarted == a.closeStarted && d.closeStarted == b.closeStarted
            && c.l.peerWindow == d.l.peerWindow == RECEIVE_CAPACITY && c.l.peerMss == d.l.peerMss == LOCAL_MSS
  {
    hide Dial, Poll, U32, TakesAll;
    DialSends(a, local, port, peer, b.l.port, now, da);
    var a1 := Dial(a, local, port, peer, b.l.port, now, da);
    SynIsAnswered(b, Last(a1), now, now, db);
    var b1 := Poll(b, now, now, Some(Last(a1)), db);
    SynAckIsAcknowledged(a1, Last(b1), now, now, da);
    var a2 := Poll(a1, now, now, Some(Last(b1)), da);
    LastAckOpens(b1, Last(a2), now, now, db);
  }

  /** The whole conversation without loss: connect, then write any message at one end;
      the other end reads exactly that message. */
  lemma MessageIsRead(a: Connection, b: Connection, local: Address, port: u16, peer: Address, data: seq<byte>,
                      now: u64, da: Device, db: Device)
    requires Idle(a) && Idle(b) && TakesAll(da) && TakesAll(db)
    ensures var (c, d) := Handshake(a, b, local, port, peer, now, da, db);
            Transfer(c, d, data, now, now, da, db).2 == data && Transfer(d, c, data, now, now, db, da).2 == data
  {
    hide Handshake, Transfer, Idle, TakesAll;
    HandshakeConnects(a, b, local, port, peer, now, da, db);
    var (c, d) := Handshake(a, b, local, port, peer, now, da, db);
    TransferDeliversAll(c, d, data, now, now, da, db);
    TransferDeliversAll(d, c, data, now, now, db, da);
  }
}
