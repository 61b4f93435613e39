/** The orderly close, when nothing is lost. */
module TcpGoodbye {
  import opened Words
  import opened Wrappers
  import opened TcpListener
  import opened TcpConnection
  import opened TcpProgress

  /** Connected and with nothing to do but, perhaps, to close. */
  predicate Drained(c: Connection) {
    && IsConnected(c.l.state) && c.tx == [] && c.pending == [] && c.closeStarted == 0
    && !c.windowUpdate && c.lastWindow != 0 && c.rtt.timeout > 0
  }

  // ----- a FIN goes out

  /** The endpoint after its FIN was sent and remembered. */
  function FinSent(c: Connection, now: u64): Connection
    requires Drained(c)
  {
    var (l, fin) := BeginClose(c.l);
    var d := c.(l := l, closeRequested := false, closeStarted := now, windowChanged := false);
    d.(offers := d.offers + 1, wire := d.wire + [OnWire(d, fin, [])], lastWindow := Window(d),
       pending := [PendingFor(d, now, fin, [])])
  }

  lemma CloseSendsFin(c: Connection, now: u64, dev: Device)
    requires Drained(c) && TakesAll(dev)
    ensures Maintain(Close(c), now, dev) == FinSent(c, now)
  {
    hide OnWire, PendingFor;
    assert Takes(dev, c.offers);
    var (l, fin) := BeginClose(c.l);
    var c4 := c.(closeRequested := true, windowChanged := false);
    assert MaintainWindow(Close(c), dev) == c4;
    assert Flush(c4, now, dev) == c4;
    var d := c4.(l := l, closeRequested := false, closeStarted := now);
    var e := Send(d, fin, [], dev).0;
    assert Remember(e, now, fin, []).0.pending == [PendingFor(d, now, fin, [])] by {
      SameTimeout(d, e, now, fin, []);
    }
  }

  /** A frame between the two ends of the connection of `c`, without payload. */
  predicate Between(f: Frame, c: Connection, flags: byte) {
    && f.payload == [] && f.segment.length == 0 && f.segment.flags == flags
    && f.segment.source == c.l.peer && f.segment.destination == c.l.local
    && f.segment.sourcePort == c.l.peerPort && f.segment.destinationPort == c.l.port
  }

  /** One segment in flight that was just sent. */
  predicate JustSent(c: Connection, now: u64) {
    && |c.pending| == 1 && c.pending[0].sentAt == now && c.pending[0].timeout > 0
    && c.pending[0].expected == c.l.sequence && c.rtt.timeout > 0
  }

  /** After a FIN: nothing for maintenance to do at the same instant. */
  predicate Leaves(c: Connection, now: u64) {
    && IsClosing(c.l.state) && c.tx == [] && !c.closeRequested && !c.windowUpdate && !c.windowChanged
    && c.closeStarted == now && now > 0 && (c.pending == [] || JustSent(c, now))
  }

  lemma LeavesMaintain(c: Connection, now: u64, dev: Device)
    requires Leaves(c, now)
    ensures Maintain(c, now, dev) == c
  {
    hide Send;
    U64Small(0);
    if c.pending != [] {
      assert !Expired(c.pending[0], now);
      assert MaintainPendingFrom(c, 1, now, dev) == c;
    }
    assert MaintainPendingFrom(c, 0, now, dev) == c;
  }

  lemma FinSentLeaves(c: Connection, now: u64)
    requires Drained(c) && now > 0 && !c.closeRequested
    ensures var d := FinSent(c, now);
            && Leaves(d, now) && JustSent(d, now) && d.wire != []
            && d.l.state == (if c.l.state == CloseWait then LastAck else FinWait1)
            && Last(d).payload == [] && Last(d).segment.length == 0 && Last(d).segment.flags == FIN + ACK
            && Last(d).segment.sequence == c.l.sequence && Last(d).segment.acknowledgement == c.l.acknowledgement
            && Last(d).segment.source == c.l.local && Last(d).segment.destination == c.l.peer
            && Last(d).segment.sourcePort == c.l.port && Last(d).segment.destinationPort == c.l.peerPort
            && d.l == c.l.(sequence := U32(c.l.sequence + 1), state := d.l.state)
  {
    U32Add(c.l.sequence, 1);
  }

  // ----- the peer hears it

  predicate IsFin(f: Frame, b: Connection) {
    && Between(f, b, FIN + ACK) && f.segment.sequence == b.l.acknowledgement && f.segment.acknowledgement == b.l.sequence
  }

  function HeardFin(b: Connection, f: Frame): Listener {
    b.l.(peerWindow := f.segment.window, acknowledgement := U32(b.l.acknowledgement + 1), state := CloseWait)
  }

  lemma FinIsReceived(b: Connection, f: Frame)
    requires b.l.state == Established && IsFin(f, b)
    ensures var l := HeardFin(b, f);
            Matches(b.l, f.segment)
            && Receive(b.l, f.segment) == Received(true, l, ReplyWith(EmptyReply(f.segment), l, ACK))
  {
  }

  /** The reader learns that the stream is over, and the FIN is acknowledged. */
  lemma FinIsHeard(b: Connection, f: Frame, now: u64, late: u64, dev: Device)
    requires Still(b) && IsFin(f, b) && TakesAll(dev) && Window(b) != 0
    ensures var d := Poll(b, now, late, Some(f), dev);
            && d.l == HeardFin(b, f) && d.peerClosed && d.rx == b.rx && d.tx == [] && d.pending == []
            && d.generation == b.generation && d.closeStarted == b.closeStarted && !d.closeRequested
            && !d.windowUpdate && d.lastWindow != 0 && d.rtt == b.rtt && d.wire != []
            && Between(Last(d), b.(l := Swapped(b.l)), ACK)
            && Last(d).segment.sequence == b.l.sequence && Last(d).segment.acknowledgement == d.l.acknowledgement
  {
    hide Receive, Maintain, Respond, Arrive;
    StillMaintain(b, now, dev);
    var c := b.(windowChanged := false);
    FinIsReceived(c, f);
    var l := HeardFin(b, f);
    var reply := ReplyWith(EmptyReply(f.segment), l, ACK);
    SettlesFin(c, l, reply, f, late, dev);
    AcksAtOnce(c.(l := l, peerClosed := true), reply, late, dev);
  }

  /** The listener as its peer sees it. */
  function Swapped(l: Listener): Listener {
    l.(local := l.peer, peer := l.local, port := l.peerPort, peerPort := l.port)
  }

  lemma SettlesFin(c: Connection, l: Listener, reply: Segment, f: Frame, late: u64, dev: Device)
    requires Still(c) && IsFin(f, c) && Receive(c.l, f.segment) == Received(true, l, reply) && l == HeardFin(c, f)
    ensures Arrive(c, f, late, dev) == Respond(c.(l := l, peerClosed := true), reply, late, dev)
  {
    hide Receive, Respond, Matches;
    FinIsReceived(c, f);
    NextDiffers(c.l.acknowledgement);
    var d := c.(l := l);
    assert AcknowledgeFor(d, f.segment, late) == d;
    assert Deliver(d, c.l, f, late) == c.(l := l, peerClosed := true);
  }

  lemma NextDiffers(word: u32)
    ensures U32(word + 1) != word
  {
  }

  // ----- FIN-WAIT-1 to FIN-WAIT-2

  lemma AckIsReceived(a: Connection, f: Frame)
    requires a.l.state == FinWait1 && Between(f, a, ACK) && f.segment.acknowledgement == a.l.sequence
    ensures Matches(a.l, f.segment)
            && Receive(a.l, f.segment)
               == Received(true, a.l.(peerWindow := f.segment.window, state := FinWait2), EmptyReply(f.segment))
  {
  }

  lemma FinIsAcknowledged(a: Connection, f: Frame, now: u64, late: u64, dev: Device)
    requires Leaves(a, now) && a.l.state == FinWait1 && JustSent(a, now)
    requires Between(f, a, ACK) && f.segment.acknowledgement == a.l.sequence
    ensures var d := Poll(a, now, late, Some(f), dev);
            d == a.(l := a.l.(peerWindow := f.segment.window, state := FinWait2), pending := [], rtt := d.rtt)
            && d.rtt.timeout > 0
  {
    hide Receive, Maintain, AcknowledgeFor;
    LeavesMaintain(a, now, dev);
    AckIsReceived(a, f);
    var c := a.(l := a.l.(peerWindow := f.segment.window, state := FinWait2));
    ReleasesOne(c, f.segment, late);
    var d := AcknowledgeFor(c, f.segment, late);
    assert Deliver(d, a.l, f, late) == d;
    assert Arrive(a, f, late, dev) == Respond(d, EmptyReply(f.segment), late, dev);
  }

  // ----- FIN-WAIT-2 to TIME-WAIT

  function HeardLastFin(a: Connection, f: Frame): Listener {
    a.l.(peerWindow := f.segment.window, acknowledgement := U32(a.l.acknowledgement + 1), state := TimeWait)
  }

  lemma LastFinIsReceived(a: Connection, f: Frame)
    requires a.l.state == FinWait2 && Between(f, a, FIN + ACK) && f.segment.sequence == a.l.acknowledgement
    ensures var l := HeardLastFin(a, f);
            Matches(a.l, f.segment)
            && Receive(a.l, f.segment) == Received(true, l, ReplyWith(EmptyReply(f.segment), l, ACK))
  {
  }

  lemma SettlesLastFin(a: Connection, l: Listener, reply: Segment, f: Frame, late: u64, dev: Device)
    requires a.l.state == FinWait2 && a.pending == [] && Between(f, a, FIN + ACK)
    requires f.segment.sequence == a.l.acknowledgement && !a.closeRequested
    requires Receive(a.l, f.segment) == Received(true, l, reply) && l == HeardLastFin(a, f)
    ensures Arrive(a, f, late, dev) == Respond(a.(l := l, peerClosed := true, timeWaitStarted := late), reply, late, dev)
  {
    hide Receive, Respond, Matches;
    LastFinIsReceived(a, f);
    NextDiffers(a.l.acknowledgement);
    var d := a.(l := l);
    assert AcknowledgeFor(d, f.segment, late) == d;
    assert Deliver(d, a.l, f, late) == a.(l := l, peerClosed := true, timeWaitStarted := late);
  }

  lemma LastFinIsHeard(a: Connection, f: Frame, now: u64, late: u64, dev: Device)
    requires Leaves(a, now) && a.l.state == FinWait2 && a.pending == [] && TakesAll(dev)
    requires Between(f, a, FIN + ACK) && f.segment.sequence == a.l.acknowledgement
    ensures var d := Poll(a, now, late, Some(f), dev);
            && d.l == HeardLastFin(a, f) && d.generation == a.generation && d.timeWaitStarted == late
            && d.tx == [] && d.pending == [] && !d.closeRequested && d.wire != []
            && Between(Last(d), a.(l := Swapped(a.l)), ACK) && Last(d).segment.acknowledgement == d.l.acknowledgement
  {
    hide Receive, Maintain, Respond, Arrive;
    LeavesMaintain(a, now, dev);
    LastFinIsReceived(a, f);
    var l := HeardLastFin(a, f);
    var reply := ReplyWith(EmptyReply(f.segment), l, ACK);
    SettlesLastFin(a, l, reply, f, late, dev);
    AcksAtOnce(a.(l := l, peerClosed := true, timeWaitStarted := late), reply, late, dev);
  }

  // ----- LAST-ACK and TIME-WAIT end

  lemma LastAckEnds(b: Connection, f: Frame, now: u64, late: u64, dev: Device)
    requires Leaves(b, now) && b.l.state == LastAck && Between(f, b, ACK) && f.segment.acknowledgement == b.l.sequence
    ensures Poll(b, now, late, Some(f), dev).generation == b.generation + 1
    ensures Poll(b, now, late, Some(f), dev).l.state == Listen
  {
    hide Maintain, AcknowledgeFor, Acknowledge;
    LeavesMaintain(b, now, dev);
    assert Receive(b.l, f.segment).ok && Receive(b.l, f.segment).listener.state == Listen;
    AcknowledgeKeepsGeneration(b.(l := Receive(b.l, f.segment).listener), f.segment, late);
  }

  lemma {:induction false} AcknowledgeWord(c: Connection, word: u32, now: u64)
    ensures Acknowledge(c, now, word).generation == c.generation && Acknowledge(c, now, word).l == c.l
    decreases |c.pending|
  {
    if c.pending != [] && Releases(word, c.pending[0].expected) {
      var p := c.pending[0];
      var rtt := if p.retransmissions == 0 && now >= p.sentAt then UpdateRoundTrip(c.rtt, now - p.sentAt) else c.rtt;
      AcknowledgeWord(c.(rtt := rtt, pending := c.pending[1..]), word, now);
    }
  }

  lemma AcknowledgeKeepsGeneration(c: Connection, s: Segment, now: u64)
    ensures AcknowledgeFor(c, s, now).generation == c.generation && AcknowledgeFor(c, s, now).l == c.l
  {
    hide Acknowledge;
    AcknowledgeWord(c, s.acknowledgement, now);
  }

  lemma TimeWaitEnds(a: Connection, since: u64, now: u64, dev: Device)
    requires a.l.state == TimeWait && a.tx == [] && a.pending == [] && !a.closeRequested && a.timeWaitStarted == since > 0
    requires U64(now - since) >= TIME_WAIT_MS
    ensures Maintain(a, now, dev).generation == a.generation + 1 && Maintain(a, now, dev).l.state == Listen
  {
    hide Send;
    var c := ResetStream(a);
    assert MaintainClose(a, now) == c;
    assert MaintainWindow(c, dev) == c && Flush(c, now, dev) == c && MaintainStreamClose(c, now, dev) == c;
  }

  // ----- the whole goodbye

  /** `a` closes, `b` hears it and closes too; each frame is handed over once. */
  function Goodbye(a: Connection, b: Connection, now: u64, da: Device, db: Device): (Connection, Connection)
  {
    var a1 := Maintain(Close(a), now, da);
    if a1.wire == [] then (a1, b)
    else
      var b1 := Poll(b, now, now, Some(Last(a1)), db);
      if b1.wire == [] then (a1, b1)
      else
        var a2 := Poll(a1, now, now, Some(Last(b1)), da);
        var b2 := Maintain(Close(b1), now, db);
        if b2.wire == [] then (a2, b2)
        else
          var a3 := Poll(a2, now, now, Some(Last(b2)), da);
          if a3.wire == [] then (a3, b2) else (a3, Poll(b2, now, now, Some(Last(a3)), db))
  }

  /** Seven frames and polls end the connection on both sides without a reset by timeout:
      `b` is free at once, `a` half a second later. */
  lemma GoodbyeEnds(a: Connection, b: Connection, now: u64, later: u64, da: Device, db: Device)
    requires Still(a) && Still(b) && Facing(a, b) && TakesAll(da) && TakesAll(db)
    requires a.closeStarted == 0 && b.closeStarted == 0 && Window(a) != 0 && Window(b) != 0
    requires now > 0 && U64(later - now) >= TIME_WAIT_MS
    ensures var (c, d) := Goodbye(a, b, now, da, db);
            && d.l.state == Listen && d.generation == b.generation + 1
            && c.l.state == TimeWait && c.generation == a.generation
            && Maintain(c, later, da).l.state == Listen && Maintain(c, later, da).generation == a.generation + 1
  {
    hide Poll, Maintain, FinSent, U32, U64, TakesAll;
    CloseSendsFin(a, now, da);
    FinSentLeaves(a, now);
    var a1 := FinSent(a, now);
    assert a1.generation == a.generation by { FinSentGeneration(a, now); }
    FinIsHeard(b, Last(a1), now, now, db);
    var b1 := Poll(b, now, now, Some(Last(a1)), db);
    FinIsAcknowledged(a1, Last(b1), now, now, da);
    var a2 := Poll(a1, now, now, Some(Last(b1)), da);
    CloseSendsFin(b1, now, db);
    FinSentLeaves(b1, now);
    var b2 := FinSent(b1, now);
    assert b2.generation == b1.generation by { FinSentGeneration(b1, now); }
    LastFinIsHeard(a2, Last(b2), now, now, da);
    var a3 := Poll(a2, now, now, Some(Last(b2)), da);
    LastAckEnds(b2, Last(a3), now, now, db);
    TimeWaitEnds(a3, now, later, da);
  }

  lemma FinSentGeneration(c: Connection, now: u64)
    requires Drained(c)
    ensures FinSent(c, now).generation == c.generation
  {
  }

  // ----- what the closing states know

  /** The states in which the peer has acknowledged the endpoint's own FIN. */
  predicate FinAcked(s: State) {
    s == FinWait2 || s == TimeWait
  }

  /** The states in which the endpoint has taken the peer's FIN. */
  predicate FinTaken(s: State) {
    s == CloseWait || s == LastAck || s == Closing || s == TimeWait
  }

  /** Section 3.6 of RFC 9293: from FIN-WAIT-1 and CLOSING the state always says which of the
      two FINs is acknowledged: each segment adds what it tells, and nothing is forgotten. */
  lemma ClosesBySteps(l: Listener, s: Segment)
    requires l.state == FinWait1 || l.state == Closing
    requires Matches(l, s) && !HasRst(s.flags)
    ensures var r := Receive(l, s);
            var acks := HasAck(s.flags) && (s.acknowledgement == l.sequence || TcpListener.After(s.acknowledgement, l.sequence));
            var fins := l.state == FinWait1 && HasFin(s.flags) && s.sequence == l.acknowledgement;
            && (FinAcked(r.listener.state) <==> FinAcked(l.state) || acks)
            && (FinTaken(r.listener.state) <==> FinTaken(l.state) || fins)
            && r.listener.state in {FinWait1, FinWait2, Closing, TimeWait}
            && (r.ok <==> acks || fins)
            && (fins <==> r.reply.flags == ACK && r.reply.acknowledgement == r.listener.acknowledgement)
  {
    hide U32;
  }

  /** FIN-WAIT-2 waits for the FIN, and TIME-WAIT acknowledges it again. */
  lemma WaitsForFin(l: Listener, s: Segment)
    requires Matches(l, s) && !HasRst(s.flags)
    ensures var r := Receive(l, s);
            && (l.state == FinWait2 ==>
                  if HasFin(s.flags) && s.sequence == l.acknowledgement
                  then r.ok && r.listener.state == TimeWait && r.reply.flags == ACK
                       && r.listener.acknowledgement == U32(l.acknowledgement + 1) == r.reply.acknowledgement
                  else !r.ok && r.listener.state == FinWait2)
            && (l.state == TimeWait ==>
                  r.listener.state == TimeWait && (r.ok <==> HasFin(s.flags)) && (r.ok ==> r.reply.flags == ACK))
            && (l.state == LastAck ==>
                  var acks := HasAck(s.flags) && (s.acknowledgement == l.sequence || TcpListener.After(s.acknowledgement, l.sequence));
                  (r.ok <==> acks) && r.listener.state == if acks then Listen else LastAck)
  {
    hide U32;
  }

  // ----- half-closed connections

  /** Data written after the peer's FIN goes out at the next poll, like any other. */
  lemma HalfClosedSends(c: Connection, data: seq<byte>, now: u64, dev: Device)
    requires Drained(c) && !c.closeRequested && |data| <= TRANSMIT_CAPACITY && SendsAtOnce(c.(tx := data)) && TakesAll(dev)
    ensures Maintain(Write(c, data), now, dev) == Sent(c.(tx := data, windowChanged := false), now)
  {
    hide FlushLoop, Sent, Send;
    assert [] + data == data;
    FlushesAll(c.(tx := data, windowChanged := false), now, dev);
    SentClosesNothing(c.(tx := data, windowChanged := false), now);
  }

  /** And the acknowledgement of it is heard in CLOSE-WAIT. */
  lemma HalfClosedIsAcked(c: Connection, f: Frame, now: u64, dev: Device)
    requires c.l.state == CloseWait && c.tx == [] && |c.pending| == 1 && c.rtt.timeout > 0
    requires Between(f, c, ACK) && f.segment.acknowledgement == c.l.sequence == c.pending[0].expected
    ensures var d := Arrive(c, f, now, dev);
            d == c.(l := c.l.(peerWindow := f.segment.window), pending := [], rtt := d.rtt)
  {
    hide Receive, AcknowledgeFor;
    CloseWaitReceives(c.l, f.segment);
    var e := c.(l := c.l.(peerWindow := f.segment.window));
    ReleasesOne(e, f.segment, now);
    assert Arrive(c, f, now, dev) == Respond(AcknowledgeFor(e, f.segment, now), EmptyReply(f.segment), now, dev);
  }

  lemma CloseWaitReceives(l: Listener, s: Segment)
    requires l.state == CloseWait && Matches(l, s) && s.flags == ACK && s.acknowledgement == l.sequence
    ensures Receive(l, s) == Received(true, l.(peerWindow := s.window), EmptyReply(s))
  {
    U32Near(0);
  }

  /** But an endpoint of this kernel that has sent its FIN drops data without a word, so
      between two of them nothing written after the peer's FIN arrives. */
  lemma FinWaitDropsData(c: Connection, f: Frame, now: u64, dev: Device)
    requires c.l.state == FinWait2 && Matches(c.l, f.segment) && !TooLong(c, f)
    requires f.segment.flags == ACK + PSH
    ensures Arrive(c, f, now, dev) == c.(l := c.l.(peerWindow := f.segment.window))
  {
  }
}
