/** Arriving segments keep the invariant of `TcpSending`, in every state. */
module TcpArrival {
  import opened Words
  import opened Wrappers
  import opened TcpListener
  import opened TcpConnection
  import opened TcpSending
  import opened TcpSafety

  // ----- connected states

  function Consumed(l: Listener, s: Segment): nat {
    if l.state == Established && s.sequence == l.acknowledgement
    then s.length + if HasFin(s.flags) then 1 else 0
    else 0
  }

  /** The reply is empty or an ACK that carries the new acknowledgement number. */
  predicate PlainReply(r: Received) {
    r.reply.flags == 0 ||
    (r.reply.flags == ACK && r.reply.acknowledgement == r.listener.acknowledgement)
  }

  lemma ReceiveConnected(l: Listener, s: Segment)
    requires IsConnected(l.state) && Matches(l, s) && !HasRst(s.flags)
    requires InWindowAck(l, s) && s.length <= FRAME_CAPACITY
    ensures var r := Receive(l, s);
            var n := Consumed(l, s);
            && r.ok && PlainReply(r)
            && r.listener == l.(peerWindow := s.window,
                                acknowledgement := U32(l.acknowledgement + n),
                                state := r.listener.state)
            && r.listener.state ==
                 (if l.state == Established && s.sequence == l.acknowledgement && HasFin(s.flags)
                  then CloseWait else l.state)
            && (n != 0 <==> r.listener.acknowledgement != l.acknowledgement)
  {
    U32Near(l.acknowledgement);
    if U32(l.acknowledgement + Consumed(l, s)) == l.acknowledgement {
      U32Injective(l.acknowledgement + Consumed(l, s), l.acknowledgement);
    }
  }

  lemma AcknowledgeKeeps(l: Listener, tx: seq<byte>, pending: seq<Pending>, g: Log, k: nat)
    requires Conserved(l, tx, pending, g) && k <= |pending|
    ensures Conserved(l, tx, pending[k..], g.(acked := g.acked + |Bytes(pending[..k])|))
    ensures |Bytes(pending)| == |Bytes(pending[..k])| + |Bytes(pending[k..])|
  {
    hide Bytes, Tiled, U32;
    BytesSplit(pending, k);
    TiledDrop(pending, k, g.iss + g.acked);
    var n := |Bytes(pending[..k])|;
    assert g.written[g.acked..] == Bytes(pending[..k]) + (Bytes(pending[k..]) + tx);
    assert g.written[g.acked + n..] == g.written[g.acked..][n..];
  }

  /** Nothing that is said of a frame of an open connection depends on `acked`
      or on `delivered`, and what was written stays written. */
  lemma FramesOkLogged(wire: seq<Frame>, r: Reach, g: Log, h: Log)
    requires FramesOk(wire, r, g)
    requires h == g.(acked := h.acked, delivered := h.delivered, written := h.written)
    requires g.written <= h.written
    requires r.open || (h.acked == g.acked && h.written == g.written)
    ensures FramesOk(wire, r, h)
  {
    hide U32;
    forall k | g.base <= k < |wire|
      ensures FrameOk(wire[k], r, h)
    {
      var f := wire[k];
      assert FrameOk(f, r, g);
      if f.payload != [] {
        var o: nat :| CarriesAt(f, g, o) && o + |f.payload| <= r.sent;
        assert CarriesAt(f, h, o);
      }
      if HasAck(f.segment.flags) {
        WasTrueLogged(f.segment.acknowledgement, g, h, r.heard, r.heard);
      }
    }
  }

  lemma WasTrueLogged(word: u32, g: Log, h: Log, heard: int, later: int)
    requires WasTrue(word, g, heard) && h.irs == g.irs && heard <= later
    ensures WasTrue(word, h, later)
  {
    var m: nat :| AckIs(word, g, m) && m <= heard;
    assert AckIs(word, h, m);
  }

  lemma AcksWereTrueLogged(p: seq<Pending>, q: seq<Pending>, g: Log, h: Log, heard: int, later: int)
    requires AcksWereTrue(p, g, heard) && h.irs == g.irs && heard <= later
    requires forall x :: x in q ==> x in p
    ensures AcksWereTrue(q, h, later)
  {
    forall x | x in q
      ensures WasTrue(x.segment.acknowledgement, h, later)
    {
      assert x in p;
      WasTrueLogged(x.segment.acknowledgement, g, h, heard, later);
    }
  }

  lemma RespondKeeps(c: Connection, g: Log, reply: Segment, now: u64, dev: Device)
    requires Inv(c, g) && Live(c)
    requires reply.flags == 0 || (reply.flags == ACK && reply.acknowledgement == c.l.acknowledgement)
    ensures Inv(Respond(c, reply, now, dev), g)
  {
    hide Inv, FrameOk, Send, Flush;
    EmptyFrameOk(c, OnWire(c, reply, []), g);
    SendKeeps(c, g, reply, [], dev);
    FlushKeeps(Send(c, reply, [], dev).0, g, now, dev);
  }

  lemma EnqueueFits(rx: ReceiveRing, payload: seq<byte>)
    requires |payload| <= RECEIVE_CAPACITY - |rx|
    ensures Enqueue(rx, payload) == rx + payload
  {
  }

  /** The ring takes the whole payload of an in-order segment, and the
      acknowledgement number moves by exactly what the ring took. */
  lemma DeliverConnected(c: Connection, c2: Connection, g: Log, f: Frame, now: u64)
    requires TakesAck(c, f) && Decoded(f)
    requires Accounted(c.l, c.rx, g)
    requires c2.l == Receive(c.l, f.segment).listener && c2.rx == c.rx
    ensures var d := Deliver(c2, c.l, f, now);
            && d.rx == (if c.l.state == Established && f.segment.sequence == c.l.acknowledgement
                        then c.rx + f.payload else c.rx)
            && Accounted(d.l, d.rx, g)
            && Heard(c.l.state, c.rx, g) <= Heard(d.l.state, d.rx, g)
  {
    hide Receive, U32, HasAck, HasSyn, HasRst, HasFin, After, Deliver, Enqueue;
    ReceiveConnected(c.l, f.segment);
    DeliverRing(c2, c.l, f, now);
    if Consumed(c.l, f.segment) != 0 && f.payload != [] {
      EnqueueFits(c.rx, f.payload);
    }
    U32Add(g.irs + Heard(c.l.state, c.rx, g), Consumed(c.l, f.segment));
  }

  lemma DeliverRing(c: Connection, before: Listener, f: Frame, now: u64)
    ensures var d := Deliver(c, before, f, now);
            && d.l == c.l
            && d.rx == if IsConnected(c.l.state) && f.payload != [] && c.l.acknowledgement != before.acknowledgement
                       then Enqueue(c.rx, f.payload) else c.rx
  {
    hide Enqueue;
  }

  lemma AcknowledgeForFrame(c: Connection, s: Segment, now: u64)
    ensures var d := AcknowledgeFor(c, s, now);
            d == c.(rtt := d.rtt, pending := d.pending) &&
            |d.pending| <= |c.pending| && d.pending == c.pending[|c.pending| - |d.pending|..]
  {
    AcknowledgeFrame(c, now, s.acknowledgement);
  }

  lemma AcknowledgedPending(c: Connection, g: Log, s: Segment, now: u64)
    requires Tiled(c.pending, g.iss + g.acked) && c.l.sequence == U32(Next(c.pending, g))
    requires InWindowAck(c.l, s)
    ensures AcknowledgeFor(c, s, now).pending ==
            c.pending[CoveredCount(c.pending, g.iss + g.acked,
                                   Unwrap(Next(c.pending, g), s.acknowledgement))..]
  {
    hide U32, After, Unwrap, CoveredCount, Tiled, Bytes;
    AcknowledgeByCount(c, now, s.acknowledgement, g.iss + g.acked, Next(c.pending, g));
  }

  lemma SettleAcknowledge(c: Connection, l: Listener, g: Log, s: Segment, now: u64)
    requires Conserved(c.l, c.tx, c.pending, g) && InWindowAck(c.l, s)
    requires l.sequence == c.l.sequence
    ensures var c2 := AcknowledgeFor(c.(l := l), s, now);
            var h := g.(acked := g.acked + NewlyAcked(c, g, s.acknowledgement));
            && c2 == c.(l := l, rtt := c2.rtt, pending := c2.pending)
            && Conserved(l, c.tx, c2.pending, h)
            && h.acked + |Bytes(c2.pending)| == g.acked + |Bytes(c.pending)|
  {
    hide AcknowledgeFor, U32, After, Unwrap, CoveredCount, Tiled, Bytes;
    var c1 := c.(l := l);
    AcknowledgedPending(c1, g, s, now);
    AcknowledgeForFrame(c1, s, now);
    assert Conserved(l, c.tx, c.pending, g);
    AcknowledgeKeeps(l, c.tx, c.pending, g,
                     CoveredCount(c.pending, g.iss + g.acked,
                                  Unwrap(Next(c.pending, g), s.acknowledgement)));
  }

  lemma AcceptConnected(c: Connection, g: Log, f: Frame, now: u64, dev: Device)
    requires Inv(c, g) && TakesAck(c, f) && Decoded(f)
    ensures Inv(Accept(c, f, now, dev),
                g.(acked := g.acked + NewlyAcked(c, g, f.segment.acknowledgement)))
  {
    hide Receive, AcknowledgeFor, NewlyAcked, Conserved, Accounted, Inv, Settle, Heard, Bytes;
    ConnectedFits(c, g);
    var r := Receive(c.l, f.segment);
    assert r.ok && PlainReply(r) && IsConnected(r.listener.state) &&
           r.listener.sequence == c.l.sequence by { ReceiveConnected(c.l, f.segment); }
    var c2 := AcknowledgeFor(c.(l := r.listener), f.segment, now);
    SettleAcknowledge(c, r.listener, g, f.segment, now);
    AcknowledgeForFrame(c.(l := r.listener), f.segment, now);
    DeliverConnected(c, c2, g, f, now);
    SettleConnected(c, r, c2, g, f, now, dev);
  }

  /** The invariant after the acknowledgement and delivery steps, before the reply. */
  lemma DeliveredKeeps(c: Connection, d: Connection, g: Log, h: Log)
    requires Inv(c, g) && Connected(c) && Connected(d) && d.wire == c.wire
    requires h == g.(acked := h.acked)
    requires |d.pending| <= |c.pending| && d.pending == c.pending[|c.pending| - |d.pending|..]
    requires Conserved(d.l, d.tx, d.pending, h) && Accounted(d.l, d.rx, h)
    requires Heard(c.l.state, c.rx, g) <= Heard(d.l.state, d.rx, h)
    requires ReachOf(d, h).sent == ReachOf(c, g).sent
    ensures Inv(d, h)
  {
    hide Conserved, Accounted, FramesOk, Bytes, WasTrue, Heard;
    FramesOkLogged(c.wire, ReachOf(c, g), g, h);
    FramesOkFurther(c.wire, ReachOf(c, g), ReachOf(d, h), h);
    AcksWereTrueLogged(c.pending, d.pending, g, h,
                       Heard(c.l.state, c.rx, g), Heard(d.l.state, d.rx, h));
  }

  lemma SettleConnected(c: Connection, r: Received, c2: Connection, g: Log,
                        f: Frame, now: u64, dev: Device)
    requires r.ok && PlainReply(r) && IsConnected(r.listener.state)
    requires Inv(c, g) && Connected(c)
    requires c2 == AcknowledgeFor(c.(l := r.listener), f.segment, now)
    requires c2 == c.(l := r.listener, rtt := c2.rtt, pending := c2.pending)
    requires |c2.pending| <= |c.pending| && c2.pending == c.pending[|c.pending| - |c2.pending|..]
    requires var h := g.(acked := g.acked + NewlyAcked(c, g, f.segment.acknowledgement));
             var d := Deliver(c2, c.l, f, now);
             && Conserved(d.l, d.tx, d.pending, h) && Accounted(d.l, d.rx, g)
             && Heard(c.l.state, c.rx, g) <= Heard(d.l.state, d.rx, g)
             && ReachOf(d, h).sent == ReachOf(c, g).sent
    ensures Inv(Settle(c, r, f, now, dev),
                g.(acked := g.acked + NewlyAcked(c, g, f.segment.acknowledgement)))
  {
    hide Inv, AcknowledgeFor, Respond, Conserved, NewlyAcked, Bytes, U32, ReachOf;
    var h := g.(acked := g.acked + NewlyAcked(c, g, f.segment.acknowledgement));
    var d := Deliver(c2, c.l, f, now);
    DeliveredKeeps(c, d, g, h);
    RespondKeeps(d, h, r.reply, now, dev);
  }

  /** A verdict that ends the connection. */
  lemma SettleReset(c: Connection, r: Received, g: Log, f: Frame, now: u64, dev: Device)
    requires c.l.state != Listen && r.ok && r.listener.state == Listen
    ensures Inv(Settle(c, r, f, now, dev), g)
    ensures Settle(c, r, f, now, dev).l.state == Listen
  {
    hide AcknowledgeFor, Respond, Deliver;
    AcknowledgeForFrame(c.(l := r.listener), f.segment, now);
    ResetKeeps(AcknowledgeFor(c.(l := r.listener), f.segment, now), g);
  }

  lemma RefuseConnected(c: Connection, g: Log, f: Frame, now: u64, dev: Device)
    requires Inv(c, g) && Connected(c) && Matches(c.l, f.segment)
    requires HasRst(f.segment.flags) || !InWindowAck(c.l, f.segment)
    ensures Inv(Accept(c, f, now, dev), g)
  {
    hide Receive, Settle, Inv;
    var r := Receive(c.l, f.segment);
    ReceiveRefused(c.l, f.segment);
    if HasRst(f.segment.flags) {
      SettleReset(c, r, g, f, now, dev);
    } else {
      RefusedSettle(c, r, f, now, dev);
      PeerWindowKeeps(c, g, f.segment.window);
    }
  }

  lemma ReceiveRefused(l: Listener, s: Segment)
    requires IsConnected(l.state) && Matches(l, s) && (HasRst(s.flags) || !InWindowAck(l, s))
    ensures var r := Receive(l, s);
            if HasRst(s.flags) then r.ok && r.listener.state == Listen
            else !r.ok && r.listener == l.(peerWindow := s.window)
  {
    hide U32, HasFin, HasSyn;
  }

  /** The invariant says nothing of the peer's window. */
  lemma PeerWindowKeeps(c: Connection, g: Log, window: u16)
    requires Inv(c, g)
    ensures Inv(c.(l := c.l.(peerWindow := window)), g)
  {
    hide FramesOk, HasAck, HasSyn, HasFin, U32, AcksWereTrue, Tiled, Bytes, IsFinAt, Heard;
  }

  lemma RefusedSettle(c: Connection, r: Received, f: Frame, now: u64, dev: Device)
    requires !r.ok
    ensures Settle(c, r, f, now, dev) == c.(l := r.listener)
  {
  }

  // ----- opening states

  /** Frames without payload or FIN that acknowledge `word`, if anything. */
  ghost predicate Bare(wire: seq<Frame>, base: nat, word: u32) {
    && base <= |wire|
    && forall k :: base <= k < |wire| ==>
         && wire[k].payload == [] && !HasFin(wire[k].segment.flags)
         && (HasAck(wire[k].segment.flags) ==> wire[k].segment.acknowledgement == word)
  }

  lemma BareFramesOk(wire: seq<Frame>, base: nat, r: Reach, g: Log)
    requires g.base == base && Bare(wire, base, U32(g.irs)) && r.heard >= 0
    ensures FramesOk(wire, r, g)
  {
    hide HasAck, HasFin;
    assert AckIs(U32(g.irs), g, 0);
  }

  lemma FreshFits(c: Connection, base: nat)
    requires c.l.state == Established && c.tx == [] && c.pending == []
    ensures var g := FreshLog(c, base);
            Fits(c.l, c.rx, c.tx, c.closeRequested, c.pending, g) && Heard(c.l.state, c.rx, g) == 0
            && U32(g.irs) == c.l.acknowledgement
  {
    assert Bytes([]) + [] == [];
    U32Near(c.l.sequence);
    U32Near(c.l.acknowledgement);
  }

  lemma FreshKeeps(c: Connection, base: nat)
    requires c.l.state == Established && c.tx == [] && c.pending == []
    requires Bare(c.wire, base, c.l.acknowledgement)
    ensures Inv(c, FreshLog(c, base))
  {
    hide Fits, FramesOk, Bare, U32, Heard;
    FreshFits(c, base);
    BareFramesOk(c.wire, base, ReachOf(c, FreshLog(c, base)), FreshLog(c, base));
  }

  lemma IdleRespond(c: Connection, reply: Segment, now: u64, dev: Device)
    requires c.l.state == Established && c.tx == [] && c.pending == [] && reply.flags in {0, ACK}
    ensures var d := Respond(c, reply, now, dev);
            && d == c.(wire := d.wire, offers := d.offers, lastWindow := d.lastWindow)
            && (d.wire == c.wire || d.wire == c.wire + [OnWire(c, reply, [])])
  {
    hide Send, OnWire;
    SendChanges(c, reply, [], dev);
  }

  lemma BareReply(wire: seq<Frame>, base: nat, word: u32, f: Frame)
    requires Bare(wire, base, word) && f.payload == [] && !HasFin(f.segment.flags)
    requires HasAck(f.segment.flags) ==> f.segment.acknowledgement == word
    ensures Bare(wire + [f], base, word)
  {
    hide HasAck, HasFin;
  }

  lemma HandshakeIsBare(wire: seq<Frame>, l: Listener, base: nat, word: u32)
    requires HandshakeOk(wire, l, base) && (l.state == SynReceived ==> word == l.acknowledgement)
    ensures Bare(wire, base, word)
  {
    hide HasAck, HasFin, HasSyn;
  }

  lemma SynAckKeeps(c: Connection, g: Log, reply: Segment, now: u64, dev: Device)
    requires Inv(c, g) && c.l.state == SynReceived
    requires reply.flags == SYN + ACK && reply.sequence == c.l.sequence && reply.acknowledgement == c.l.acknowledgement
    ensures Inv(Respond(c, reply, now, dev), g) && Respond(c, reply, now, dev).l == c.l
  {
    hide FramesOk, Conserved, Finished, Send, HandshakeOk, OnWire, U32;
    SendKeeps(c, g, reply, [], dev);
    SendChanges(c, reply, [], dev);
    var c1 := Send(c, reply, [], dev).0;
    if c1.pending == [] {
      var q := PendingFor(c1, now, reply, []);
      assert c1.pending + [q] == [q];
      assert IsHandshake(q, c1.l.sequence);
    }
  }

  /** A SYN opens a connection whose frames begin here. */
  lemma AcceptListen(c: Connection, g: Log, f: Frame, now: u64, dev: Device)
    requires Inv(c, g) && c.l.state == Listen
    ensures var d := Accept(c, f, now, dev);
            && d.l.state in {Listen, SynReceived} && d.l == Receive(c.l, f.segment).listener
            && Inv(d, if d.l.state == SynReceived then g.(base := |c.wire|) else g)
  {
    hide Receive, Respond, Inv, AcknowledgeFor, Deliver;
    ReceiveListening(c.l, f.segment);
    var r := Receive(c.l, f.segment);
    if r.ok {
      var h := g.(base := |c.wire|);
      SynReceivedKeeps(c, g, r.listener);
      var c1 := c.(l := r.listener);
      NothingToRelease(c1, f.segment, now);
      DeliverOpening(c1, c.l, f, now);
      var d := Deliver(c1, c.l, f, now);
      InvSame(c1, d, h);
      SynAckKeeps(d, h, r.reply, now, dev);
      assert Accept(c, f, now, dev) == Respond(d, r.reply, now, dev);
    } else {
      RefusedSettle(c, r, f, now, dev);
      ListenKeeps(c, g, r.listener);
    }
  }

  lemma ReceiveListening(l: Listener, s: Segment)
    requires l.state == Listen
    ensures var r := Receive(l, s);
            if r.ok
            then r.listener.state == SynReceived && r.reply.flags == SYN + ACK &&
                 r.reply.sequence == r.listener.sequence && r.reply.acknowledgement == r.listener.acknowledgement
            else r.listener.state == Listen
  {
    hide U32;
  }

  lemma SynReceivedKeeps(c: Connection, g: Log, l: Listener)
    requires Inv(c, g) && c.l.state == Listen && l.state == SynReceived
    ensures Inv(c.(l := l), g.(base := |c.wire|)) && c.pending == []
  {
    hide FramesOk, HandshakeSegment, Conserved, Finished, Accounted;
  }

  lemma ListenKeeps(c: Connection, g: Log, l: Listener)
    requires Inv(c, g) && c.l.state == l.state == Listen
    ensures Inv(c.(l := l), g)
  {
    hide FramesOk, HandshakeOk, Conserved, Finished, Accounted;
  }

  lemma DeliverOpening(c: Connection, before: Listener, f: Frame, now: u64)
    requires IsOpening(c.l.state)
    ensures var d := Deliver(c, before, f, now);
            d == c.(peerClosed := d.peerClosed)
  {
    hide Enqueue, HasFin;
  }

  lemma ReleaseHandshake(c: Connection, s: Segment, now: u64)
    requires |c.pending| <= 1 && (c.pending == [] || c.pending[0].expected == s.acknowledgement) && HasAck(s.flags)
    ensures var d := AcknowledgeFor(c, s, now);
            d == c.(rtt := d.rtt, pending := [])
  {
    hide UpdateRoundTrip;
    AcknowledgeForFrame(c, s, now);
    if c.pending != [] {
      var p := c.pending[0];
      var rtt := if p.retransmissions == 0 && now >= p.sentAt
                 then UpdateRoundTrip(c.rtt, now - p.sentAt) else c.rtt;
      var d := c.(rtt := rtt, pending := c.pending[1..]);
      assert d.pending == [];
      assert Acknowledge(d, now, s.acknowledgement) == d;
      assert Acknowledge(c, now, s.acknowledgement) == d;
    }
  }

  /** What the listener says when a handshake completes. */
  lemma ReceiveCompletes(l: Listener, s: Segment)
    requires IsOpening(l.state) && Receive(l, s).ok && Receive(l, s).listener.state == Established
    ensures var r := Receive(l, s);
            && HasAck(s.flags) && s.acknowledgement == U32(l.sequence + 1) && PlainReply(r) && r.reply.flags in {0, ACK}
            && r.listener.sequence == U32(l.sequence + 1)
            && (l.state == SynReceived ==> r.listener.acknowledgement == l.acknowledgement)
            && (l.state == SynSent ==> r.listener.acknowledgement == U32(s.sequence + 1))
  {
    hide U32;
  }

  /** The segment that completes a handshake releases the SYN and leaves an
      endpoint whose history starts afresh. */
  lemma EstablishKeeps(c: Connection, g: Log, f: Frame, now: u64, dev: Device)
    requires Inv(c, g) && IsOpening(c.l.state)
    requires Receive(c.l, f.segment).ok && Receive(c.l, f.segment).listener.state == Established
    ensures var d := Accept(c, f, now, dev);
            && d.l == Receive(c.l, f.segment).listener && Inv(d, FreshLog(d, g.base))
            && d.tx == [] && d.pending == []
            && d.rx == (if f.payload != [] &&
                           Receive(c.l, f.segment).listener.acknowledgement != c.l.acknowledgement
                        then Enqueue([], f.payload) else [])
  {
    hide Receive, AcknowledgeFor, Respond, Inv, HandshakeOk, Bare, Enqueue, U32;
    OpeningFits(c, g);
    ReceiveCompletes(c.l, f.segment);
    var r := Receive(c.l, f.segment);
    ReleaseHandshake(c.(l := r.listener), f.segment, now);
    var d := Deliver(AcknowledgeFor(c.(l := r.listener), f.segment, now), c.l, f, now);
    assert Accept(c, f, now, dev) == Respond(d, r.reply, now, dev);
    EstablishedKeeps(c, d, g, r.reply, now, dev);
  }

  lemma OpeningFits(c: Connection, g: Log)
    requires Inv(c, g) && IsOpening(c.l.state)
    ensures Opening(c.l, c.pending) && c.tx == [] && c.rx == [] && HandshakeOk(c.wire, c.l, g.base)
  {
    hide HandshakeOk, Opening;
  }

  lemma EstablishedKeeps(c: Connection, d: Connection, g: Log, reply: Segment, now: u64, dev: Device)
    requires HandshakeOk(c.wire, c.l, g.base) && d.wire == c.wire && reply.flags in {0, ACK}
    requires d.l.state == Established && d.tx == [] && d.pending == []
    requires reply.flags == ACK ==> reply.acknowledgement == d.l.acknowledgement
    requires c.l.state == SynReceived ==> d.l.acknowledgement == c.l.acknowledgement
    ensures var e := Respond(d, reply, now, dev);
            e.l == d.l && e.rx == d.rx && e.tx == [] && e.pending == [] && Inv(e, FreshLog(e, g.base))
  {
    hide HandshakeOk, Bare, Respond, Inv;
    HandshakeIsBare(c.wire, c.l, g.base, d.l.acknowledgement);
    IdleRespond(d, reply, now, dev);
    BareReply(d.wire, g.base, d.l.acknowledgement, OnWire(d, reply, []));
    FreshKeeps(Respond(d, reply, now, dev), g.base);
  }

  /** A repeated SYN is answered again. */
  lemma SettleSynReceived(c: Connection, r: Received, g: Log, f: Frame, now: u64, dev: Device)
    requires Inv(c, g) && c.l.state == SynReceived
    requires r.ok && r.listener == c.l.(peerWindow := r.listener.peerWindow)
    requires r.reply.flags == SYN + ACK && r.reply.sequence == c.l.sequence
    requires r.reply.acknowledgement == c.l.acknowledgement
    ensures Inv(Settle(c, r, f, now, dev), g)
    ensures Settle(c, r, f, now, dev).l == r.listener
  {
    hide AcknowledgeFor, Deliver, Respond, Inv;
    var c2 := AcknowledgeFor(c.(l := r.listener), f.segment, now);
    AcknowledgeForFrame(c.(l := r.listener), f.segment, now);
    var d := Deliver(c2, c.l, f, now);
    DeliverOpening(c2, c.l, f, now);
    OpeningKeeps(c, d, g);
    SynAckKeeps(d, g, r.reply, now, dev);
    assert Settle(c, r, f, now, dev) == Respond(d, r.reply, now, dev);
  }

  /** A handshake whose SYN may have been released. */
  lemma OpeningKeeps(c: Connection, d: Connection, g: Log)
    requires Inv(c, g) && IsOpening(c.l.state) && d.l == c.l.(peerWindow := d.l.peerWindow)
    requires |d.pending| <= |c.pending| && d.pending == c.pending[|c.pending| - |d.pending|..]
    requires d.rx == c.rx && d.tx == c.tx && d.closeRequested == c.closeRequested && d.wire == c.wire
    ensures Inv(d, g)
  {
    hide Inv, Opening, HandshakeOk;
    PeerWindowKeeps(c, g, d.l.peerWindow);
    var e := c.(l := d.l);
    OpeningReleased(e, g);
    if d.pending == [] {
      InvSame(e.(pending := []), d, g);
    } else {
      assert |c.pending| == 1;
      InvSame(e, d, g);
    }
  }

  lemma OpeningReleased(c: Connection, g: Log)
    requires Inv(c, g) && IsOpening(c.l.state)
    ensures Inv(c.(pending := []), g) && |c.pending| <= 1
  {
    hide FramesOk, HandshakeOk, HandshakeSegment, IsHandshake, Conserved, Finished, Accounted, AcksWereTrue;
  }

  lemma ReceiveSyn(l: Listener, s: Segment)
    requires IsOpening(l.state) && Matches(l, s)
    ensures var r := Receive(l, s);
            || (r.listener.state == Listen && r.ok)
            || (r.listener.state == Established && r.ok)
            || (r.listener == l.(peerWindow := s.window) &&
                (r.ok ==> l.state == SynReceived && r.reply.flags == SYN + ACK &&
                          r.reply.sequence == l.sequence && r.reply.acknowledgement == l.acknowledgement))
  {
    hide U32;
  }

  lemma AcceptSyn(c: Connection, g: Log, f: Frame, now: u64, dev: Device)
    requires Inv(c, g) && IsOpening(c.l.state) && Matches(c.l, f.segment)
    ensures var d := Accept(c, f, now, dev);
            Inv(d, if Establishes(c, d) then FreshLog(d, g.base) else g)
  {
    hide Receive, Inv, Settle;
    ReceiveSyn(c.l, f.segment);
    var r := Receive(c.l, f.segment);
    if r.listener.state == Established && r.ok {
      EstablishKeeps(c, g, f, now, dev);
    } else if r.listener.state == Listen && r.ok {
      SettleReset(c, r, g, f, now, dev);
    } else if r.ok {
      SettleSynReceived(c, r, g, f, now, dev);
    } else {
      OpeningKeeps(c, c.(l := r.listener), g);
      RefusedSettle(c, r, f, now, dev);
    }
  }

  // ----- closing states

  lemma ReceiveLeaving(l: Listener, s: Segment)
    requires IsLeaving(l.state) && Matches(l, s)
    ensures var r := Receive(l, s);
            && PlainReply(r)
            && (r.listener.state == Listen ==> r.ok)
            && (r.listener.state != Listen ==> StaysLeaving(l, r.listener))
            && (r.listener.state != Listen && PeerDone(r.listener.state) && !PeerDone(l.state) ==>
                  HasFin(s.flags))
  {
    U32Near(l.acknowledgement);
  }

  /** Between the closing states the acknowledgement number moves by one, exactly
      when the peer's FIN is taken. */
  predicate StaysLeaving(l: Listener, k: Listener) {
    && IsLeaving(l.state) && IsLeaving(k.state) && k.sequence == l.sequence
    && (PeerDone(l.state) ==> PeerDone(k.state))
    && k.acknowledgement ==
       U32(l.acknowledgement + if PeerDone(k.state) && !PeerDone(l.state) then 1 else 0)
  }

  lemma AccountedLeaving(l: Listener, k: Listener, rx: seq<byte>, g: Log)
    requires StaysLeaving(l, k) && Accounted(l, rx, g)
    ensures Accounted(k, rx, g) && Heard(l.state, rx, g) <= Heard(k.state, rx, g)
  {
    U32Add(g.irs + Heard(l.state, rx, g), if PeerDone(k.state) && !PeerDone(l.state) then 1 else 0);
  }

  lemma FinCarriesNothing(c: Connection, g: Log)
    requires Inv(c, g) && IsLeaving(c.l.state)
    ensures |Bytes(c.pending)| == 0
  {
    hide FramesOk, Accounted, AcksWereTrue, U32;
    if c.pending != [] {
      assert c.pending[1..] == [];
      assert Bytes(c.pending) == c.pending[0].payload + Bytes([]);
    }
  }

  lemma BytesOfNone()
    ensures Bytes([]) == []
  {
  }

  /** The acknowledgement step can at most release the FIN. */
  lemma LeavingKeeps(c: Connection, l: Listener, pending: PendingRing, g: Log)
    requires Inv(c, g) && StaysLeaving(c.l, l)
    requires pending == c.pending || pending == []
    ensures Inv(c.(l := l, pending := pending), g)
  {
    hide FramesOk, U32, WasTrue, Bytes;
    var d := c.(l := l, pending := pending);
    FinCarriesNothing(c, g);
    assert pending == [] ==> |Bytes(pending)| == 0 by { BytesOfNone(); }
    AccountedLeaving(c.l, l, c.rx, g);
    AcksWereTrueLogged(c.pending, pending, g, g,
                       Heard(c.l.state, c.rx, g), Heard(l.state, c.rx, g));
    FramesOkFurther(c.wire, ReachOf(c, g), ReachOf(d, g), g);
  }

  lemma DeliverLeaving(c: Connection, before: Listener, f: Frame, now: u64)
    requires IsLeaving(c.l.state)
    ensures var d := Deliver(c, before, f, now);
            d == c.(peerClosed := d.peerClosed, timeWaitStarted := d.timeWaitStarted)
  {
  }

  lemma SettleLeaving(c: Connection, r: Received, g: Log, f: Frame, now: u64, dev: Device)
    requires Inv(c, g) && r.ok && PlainReply(r) && StaysLeaving(c.l, r.listener)
    ensures Inv(Settle(c, r, f, now, dev), g)
  {
    hide Inv, AcknowledgeFor, Deliver, Respond, StaysLeaving, Settle;
    StaysIsLeaving(c.l, r.listener);
    SettleOpen(c, r, f, now, dev);
    var c1 := c.(l := r.listener);
    var c2 := AcknowledgeFor(c1, f.segment, now);
    AcknowledgeForFrame(c1, f.segment, now);
    ReleasesFin(c, g, c2.pending);
    LeavingKeeps(c, r.listener, c2.pending, g);
    DeliverLeaving(c2, c.l, f, now);
    var d := Deliver(c2, c.l, f, now);
    InvSame(c.(l := r.listener, pending := c2.pending), d, g);
    RespondKeeps(d, g, r.reply, now, dev);
  }

  lemma SettleOpen(c: Connection, r: Received, f: Frame, now: u64, dev: Device)
    requires r.ok && r.listener.state != Listen
    ensures Settle(c, r, f, now, dev) ==
            Respond(Deliver(AcknowledgeFor(c.(l := r.listener), f.segment, now), c.l, f, now), r.reply, now, dev)
  {
    hide AcknowledgeFor, Deliver, Respond, ResetStream;
    AcknowledgeForFrame(c.(l := r.listener), f.segment, now);
  }

  lemma StaysIsLeaving(l: Listener, k: Listener)
    requires StaysLeaving(l, k)
    ensures IsLeaving(l.state) && IsLeaving(k.state)
  {
    hide U32;
  }

  /** Only the FIN can be pending, so what is left is all or nothing. */
  lemma ReleasesFin(c: Connection, g: Log, pending: PendingRing)
    requires Inv(c, g) && IsLeaving(c.l.state)
    requires |pending| <= |c.pending| && pending == c.pending[|c.pending| - |pending|..]
    ensures pending == c.pending || pending == []
  {
    hide Inv, Accounted, IsFinAt, U32;
    LeavingFits(c, g);
  }

  lemma AcceptLeaving(c: Connection, g: Log, f: Frame, now: u64, dev: Device)
    requires Inv(c, g) && IsLeaving(c.l.state) && Matches(c.l, f.segment)
    ensures Inv(Accept(c, f, now, dev), g)
  {
    hide FramesOk, Receive, AcknowledgeFor, Deliver, Respond, Inv, U32;
    ReceiveLeaving(c.l, f.segment);
    var r := Receive(c.l, f.segment);
    if r.ok && r.listener.state == Listen {
      SettleReset(c, r, g, f, now, dev);
    } else if r.ok {
      SettleLeaving(c, r, g, f, now, dev);
    } else {
      LeavingKeeps(c, r.listener, c.pending, g);
    }
  }

  // ----- every arrival

  lemma TooLongKeeps(c: Connection, g: Log, f: Frame, now: u64, dev: Device)
    requires Inv(c, g) && Matches(c.l, f.segment) && TooLong(c, f)
    ensures Inv(Arrive(c, f, now, dev), LogArrive(g, c, f, now, dev))
  {
    hide Inv, Send, FrameOk;
    var d := Send(c, CurrentAck(c), [], dev).0;
    SendChanges(c, CurrentAck(c), [], dev);
    if c.l.state == SynSent {
      StrayKeeps(c, d, g);
    } else {
      EmptyFrameOk(c, OnWire(c, CurrentAck(c), []), g);
      SendKeeps(c, g, CurrentAck(c), [], dev);
    }
  }

  lemma StrayKeeps(c: Connection, d: Connection, g: Log)
    requires Inv(c, g) && c.l.state == SynSent
    requires d == c.(wire := d.wire, offers := d.offers, lastWindow := d.lastWindow)
    ensures Inv(d, g.(base := |d.wire|))
  {
    hide FramesOk, HandshakeSegment, IsHandshake;
  }

  lemma ArriveMatching(c: Connection, g: Log, f: Frame, now: u64, dev: Device)
    requires Inv(c, g) && Decoded(f) && Matches(c.l, f.segment)
    ensures Inv(Arrive(c, f, now, dev), LogArrive(g, c, f, now, dev))
  {
    hide Accept, Inv, Send, NewlyAcked, HasRst, InWindowAck, ResetStream;
    if TooLong(c, f) {
      TooLongKeeps(c, g, f, now, dev);
    } else if Connected(c) {
      if TakesAck(c, f) {
        AcceptConnected(c, g, f, now, dev);
      } else {
        RefuseConnected(c, g, f, now, dev);
      }
    } else if IsLeaving(c.l.state) {
      AcceptLeaving(c, g, f, now, dev);
    } else if c.l.state == Listen {
      AcceptListen(c, g, f, now, dev);
    } else {
      AcceptSyn(c, g, f, now, dev);
    }
  }

  /** Nobody asked to close a connection that is being opened, so it gives way to no SYN. */
  lemma OpeningStays(c: Connection, g: Log, s: Segment)
    requires Inv(c, g) && IsOpening(c.l.state)
    ensures GiveWay(c, s) == c
  {
    hide FramesOk, HandshakeOk, Opening;
  }

  lemma ArriveKeeps(c: Connection, g: Log, f: Frame, now: u64, dev: Device)
    requires Inv(c, g) && Decoded(f)
    ensures Inv(Arrive(c, f, now, dev), LogArrive(g, c, f, now, dev))
  {
    hide Accept, Inv, Send;
    if Matches(c.l, f.segment) {
      ArriveMatching(c, g, f, now, dev);
    } else {
      ResetKeeps(c, g);
      var d := GiveWay(c, f.segment);
      if Matches(d.l, f.segment) {
        ArriveMatching(d, g, f, now, dev);
        if IsOpening(c.l.state) { OpeningStays(c, g, f.segment); }
        assert GiveWay(d, f.segment) == d && Arrive(c, f, now, dev) == Arrive(d, f, now, dev);
        assert LogArrive(g, c, f, now, dev) == LogArrive(g, d, f, now, dev);
      }
    }
  }

  // ----- every step, every run

  lemma WriteKeeps(c: Connection, g: Log, data: seq<byte>)
    requires Inv(c, g) && CanWrite(c, data)
    ensures Inv(Write(c, data), g.(written := g.written + data))
  {
    hide FramesOk, U32, AckIs;
    var h := g.(written := g.written + data);
    assert h.written[h.acked..] == g.written[g.acked..] + data;
    assert Bytes(c.pending) + (c.tx + data) == Bytes(c.pending) + c.tx + data;
    FramesOkLogged(c.wire, ReachOf(c, g), g, h);
    AcksWereTrueLogged(c.pending, c.pending, g, h,
                       Heard(c.l.state, c.rx, g), Heard(c.l.state, c.rx, h));
  }

  lemma ReadKeeps(c: Connection, g: Log, capacity: nat)
    requires Inv(c, g)
    ensures Inv(Read(c, capacity), g.(delivered := g.delivered + c.rx[..ReadCount(c, capacity)]))
  {
    hide U32, FramesOk, WasTrue, AcksWereTrue, Tiled, Bytes, IsFinAt, HandshakeOk, Opening;
    var h := g.(delivered := g.delivered + c.rx[..ReadCount(c, capacity)]);
    if Live(c) {
      FramesOkLogged(c.wire, ReachOf(c, g), g, h);
      AcksWereTrueLogged(c.pending, c.pending, g, h,
                         Heard(c.l.state, c.rx, g), Heard(c.l.state, c.rx, g));
      assert Heard(c.l.state, Read(c, capacity).rx, h) == Heard(c.l.state, c.rx, g);
    }
  }

  lemma CloseKeeps(c: Connection, g: Log)
    requires Inv(c, g)
    ensures Inv(Close(c), g)
  {
    hide FramesOk, HandshakeOk, Opening, Accounted, AcksWereTrue, Conserved, Finished;
  }

  lemma StepKeeps(c: Connection, g: Log, e: Event, dev: Device)
    requires Inv(c, g) && DecodedEvent(e)
    ensures Inv(Step(c, e, dev), LogStep(g, c, e, dev))
  {
    hide Inv, Maintain, Arrive, LogArrive, Close;
    match e
    case ReadEvent(capacity) => ReadKeeps(c, g, capacity);
    case WriteEvent(data) => if CanWrite(c, data) { WriteKeeps(c, g, data); }
    case CloseEvent => CloseKeeps(c, g);
    case PollEvent(now, late, arrival) =>
      MaintainKeeps(c, g, now, dev);
      if arrival.Some? {
        ArriveKeeps(Maintain(c, now, dev), g, arrival.value, late, dev);
      }
  }

  /** A run: the endpoint and the history after `events`. */
  function Run(c: Connection, g: Log, events: seq<Event>, dev: Device): (Connection, Log)
    decreases |events|
  {
    if events == [] then (c, g)
    else Run(Step(c, events[0], dev), LogStep(g, c, events[0], dev), events[1..], dev)
  }

  /** Send integrity.  From any state that satisfies the invariant, an idle
      listener in particular, after any run: what was written is what was
      acknowledged, then the pending payloads in ring order, then the transmit
      ring; pending segments tile the sequence space up to `listener.sequence`;
      every frame carries the bytes written at its sequence number; a FIN went
      out only after every accepted byte was acknowledged. */
  lemma {:induction false} SendIntegrity(c: Connection, g: Log, events: seq<Event>, dev: Device)
    requires Inv(c, g)
    requires forall e :: e in events ==> DecodedEvent(e)
    ensures var (d, h) := Run(c, g, events, dev); Inv(d, h)
    decreases |events|
  {
    if events != [] {
      assert events[0] in events;
      StepKeeps(c, g, events[0], dev);
      forall e | e in events[1..] ensures DecodedEvent(e) {
        assert e in events;
      }
      SendIntegrity(Step(c, events[0], dev), LogStep(g, c, events[0], dev), events[1..], dev);
    }
  }
}
