/** Receive integrity. */
module TcpDelivery {
  import opened Words
  import opened Wrappers
  import opened TcpListener
  import opened TcpConnection
  import opened TcpSending
  import opened TcpSafety
  import opened TcpArrival

  /** From `c` to `d` either the connection ended, or nothing happened to the
      receive side except that a connected endpoint may have sent its FIN. */
  predicate Quiet(c: Connection, d: Connection) {
    || d.generation > c.generation
    || (&& d.generation == c.generation && d.rx == c.rx && |d.tx| <= |c.tx|
        && d.l.acknowledgement == c.l.acknowledgement
        && (|| d.l.state == c.l.state
            || (c.l.state == Established && d.l.state == FinWait1)
            || (c.l.state == CloseWait && d.l.state == LastAck)))
  }

  // ----- maintenance does not touch the receive side

  lemma {:induction false} MaintainPendingChanges(c: Connection, i: nat, now: u64, dev: Device)
    ensures var d := MaintainPendingFrom(c, i, now, dev);
            d.generation > c.generation ||
            d == c.(pending := d.pending, lastWindow := d.lastWindow, wire := d.wire, offers := d.offers)
    decreases |c.pending| - i
  {
    if i >= |c.pending| {
    } else if !Expired(c.pending[i], now) {
      MaintainPendingChanges(c, i + 1, now, dev);
    } else if c.pending[i].retransmissions < MAX_RETRANSMISSIONS {
      hide Send, Expired;
      var p := c.pending[i];
      var sent := Send(c, p.segment, p.payload, dev).0;
      SendChanges(c, p.segment, p.payload, dev);
      MaintainPendingChanges(sent.(pending := sent.pending[i := Resent(p, now)]), i + 1, now, dev);
    }
  }

  lemma AdvanceChanges(c: Connection, now: u64, s: Segment, n: nat)
    requires |c.pending| < PENDING_CAPACITY && n <= |c.tx| && n <= c.l.peerWindow
    ensures var q := PendingFor(c, now, s, c.tx[..n]);
            var d := Advance(c.(pending := c.pending + [q]), n);
            && q.timeout == c.rtt.timeout && q.retransmissions == 0 && q.sentAt == now
            && d == c.(l := d.l, tx := c.tx[n..], pending := c.pending + [q])
            && d.l == c.l.(sequence := d.l.sequence, peerWindow := d.l.peerWindow)
  {
  }

  lemma {:induction false} FlushLoopChanges(c: Connection, now: u64, dev: Device)
    ensures var d := FlushLoop(c, now, dev);
            && d == c.(l := d.l, tx := d.tx, pending := d.pending,
                       lastWindow := d.lastWindow, wire := d.wire, offers := d.offers)
            && d.l == c.l.(sequence := d.l.sequence, peerWindow := d.l.peerWindow)
            && c.pending <= d.pending && |d.tx| <= |c.tx|
            && (c.tx == [] ==> d == c)
            && forall k :: |c.pending| <= k < |d.pending| ==>
                 d.pending[k].timeout == c.rtt.timeout && d.pending[k].retransmissions == 0 &&
                 d.pending[k].sentAt == now
    decreases |c.tx|
  {
    hide FlushLoop, Send, U32, HasSyn, HasFin;
    FlushTurn(c, now, dev);
    if |c.pending| >= PENDING_CAPACITY || c.tx == [] || c.l.peerWindow == 0 || ChunkLength(c) == 0 {
    } else {
      var n := ChunkLength(c);
      var s := DataSegment(c, n);
      SendChanges(c, s, c.tx[..n], dev);
      var (c1, ok) := Send(c, s, c.tx[..n], dev);
      if ok {
        hide Advance, PendingFor;
        var q := PendingFor(c1, now, s, c.tx[..n]);
        AdvanceChanges(c1, now, s, n);
        FlushLoopChanges(Advance(c1.(pending := c1.pending + [q]), n), now, dev);
      }
    }
  }

  lemma FlushQuiet(c: Connection, now: u64, dev: Device)
    ensures var d := Flush(c, now, dev);
            Quiet(c, d) && d.l.state == c.l.state && d.generation == c.generation
  {
    FlushLoopChanges(c, now, dev);
  }

  lemma MaintainStreamCloseQuiet(c: Connection, now: u64, dev: Device)
    ensures Quiet(c, MaintainStreamClose(c, now, dev))
  {
    hide Send;
    var c1 := if c.closeStarted == 0 then c.(closeStarted := now) else c;
    if Connected(c1) {
      var (l, fin) := BeginClose(c1.l);
      SendChanges(c1.(l := l, closeRequested := false), fin, [], dev);
    }
  }

  lemma MaintainWindowQuiet(c: Connection, dev: Device)
    ensures var d := MaintainWindow(c, dev);
            d == c.(windowChanged := d.windowChanged, windowUpdate := d.windowUpdate,
                    lastWindow := d.lastWindow, wire := d.wire, offers := d.offers)
  {
    var c1 := if c.windowChanged
              then c.(windowUpdate := c.windowUpdate || (c.lastWindow == 0 && Window(c) != 0),
                      windowChanged := false)
              else c;
    SendChanges(c1, CurrentAck(c1), [], dev);
  }

  lemma MaintainCloseQuiet(c: Connection, now: u64)
    ensures Quiet(c, MaintainClose(c, now)) && MaintainClose(c, now).generation >= c.generation
  {
    hide U64, U32;
  }

  lemma MaintainQuiet(c: Connection, now: u64, dev: Device)
    ensures Quiet(c, Maintain(c, now, dev))
  {
    hide MaintainPendingFrom, MaintainClose, MaintainWindow, Flush, MaintainStreamClose;
    var c1 := MaintainPending(c, now, dev);
    MaintainPendingChanges(c, 0, now, dev);
    var c2 := MaintainClose(c1, now);
    MaintainCloseQuiet(c1, now);
    var c3 := MaintainWindow(c2, dev);
    MaintainWindowQuiet(c2, dev);
    var c4 := Flush(c3, now, dev);
    FlushQuiet(c3, now, dev);
    MaintainStreamCloseQuiet(c4, now, dev);
  }

  lemma MaintainQuietTail(c: Connection, now: u64, dev: Device)
    ensures var d := MaintainClose(c, now);
            d.generation >= c.generation &&
            MaintainStreamClose(Flush(MaintainWindow(d, dev), now, dev), now, dev).generation >= d.generation
  {
    hide MaintainClose, MaintainWindow, Flush, MaintainStreamClose;
    MaintainCloseQuiet(c, now);
    var d := MaintainClose(c, now);
    MaintainWindowQuiet(d, dev);
    FlushQuiet(MaintainWindow(d, dev), now, dev);
    MaintainStreamCloseQuiet(Flush(MaintainWindow(d, dev), now, dev), now, dev);
  }

  // ----- what the peer sent

  /** The frame is the slice of the peer's stream at offset `o`. */
  predicate SliceAt(f: Frame, irs: int, stream: seq<byte>, o: nat) {
    && o + |f.payload| <= |stream|
    && f.payload == stream[o..o + |f.payload|]
    && f.segment.sequence == U32(irs + o)
    && (HasFin(f.segment.flags) ==> o + |f.payload| == |stream|)
  }

  /** A frame with content comes from the peer's stream, not more than one turn
      of the sequence space away from what was received. */
  ghost predicate FromPeer(f: Frame, irs: int, stream: seq<byte>, received: nat) {
    f.payload != [] || HasFin(f.segment.flags) ==>
      exists o: nat :: SliceAt(f, irs, stream, o) && -M32 < o - received < M32
  }

  function ReceivedBytes(c: Connection, g: Log): seq<byte> {
    g.delivered + c.rx
  }

  /** What was read and what waits in the ring is a prefix of the peer's stream,
      and all of it once the peer's FIN was accepted in order. */
  predicate Prefix(c: Connection, g: Log, stream: seq<byte>) {
    && g.early == 0
    && ReceivedBytes(c, g) <= stream
    && (c.l.state == CloseWait ==> ReceivedBytes(c, g) == stream)
  }

  // ----- one arrival

  lemma RespondChanges(c: Connection, reply: Segment, now: u64, dev: Device)
    ensures var d := Respond(c, reply, now, dev);
            && Quiet(c, d) && d.generation == c.generation && d.l.state == c.l.state
            && d.closeStarted == c.closeStarted && d.timeWaitStarted == c.timeWaitStarted
            && d.closeRequested == c.closeRequested && d.rtt == c.rtt && d.peerClosed == c.peerClosed
  {
    hide Send;
    SendChanges(c, reply, [], dev);
    var c1 := Send(c, reply, [], dev).0;
    var c2 := if reply.flags == SYN + ACK && c1.pending == []
              then Remember(c1, now, reply, []).0 else c1;
    FlushQuiet(c2, now, dev);
    FlushLoopChanges(c2, now, dev);
  }

  /** The effect of an acceptable segment on the receive side. */
  lemma AcceptReceives(c: Connection, g: Log, f: Frame, now: u64, dev: Device)
    requires Inv(c, g) && TakesAck(c, f) && Decoded(f)
    ensures var d := Accept(c, f, now, dev);
            var inOrder := c.l.state == Established && f.segment.sequence == c.l.acknowledgement;
            && d.generation == c.generation
            && d.rx == (if inOrder then c.rx + f.payload else c.rx) && |d.tx| <= |c.tx|
            && d.l.state == (if inOrder && HasFin(f.segment.flags) then CloseWait else c.l.state)
  {
    hide Receive, AcknowledgeFor, Respond, Inv;
    var r := Receive(c.l, f.segment);
    ReceiveConnected(c.l, f.segment);
    var c2 := AcknowledgeFor(c.(l := r.listener), f.segment, now);
    AcknowledgeForFrame(c.(l := r.listener), f.segment, now);
    assert Accounted(c.l, c.rx, g) by { ConnectedFits(c, g); }
    DeliverConnected(c, c2, g, f, now);
    RespondChanges(Deliver(c2, c.l, f, now), r.reply, now, dev);
  }

  /** An in-order segment of the peer's stream continues the received prefix. */
  lemma InOrderExtends(c: Connection, g: Log, f: Frame, stream: seq<byte>)
    requires c.l.state == Established && Accounted(c.l, c.rx, g) && Prefix(c, g, stream)
    requires f.segment.sequence == c.l.acknowledgement
    requires FromPeer(f, g.irs, stream, |ReceivedBytes(c, g)|)
    ensures ReceivedBytes(c, g) + f.payload <= stream
    ensures HasFin(f.segment.flags) ==> ReceivedBytes(c, g) + f.payload == stream
  {
    hide U32, HasFin;
    if f.payload != [] || HasFin(f.segment.flags) {
      var n := |ReceivedBytes(c, g)|;
      var o: nat :| SliceAt(f, g.irs, stream, o) && -M32 < o - n < M32;
      U32Injective(g.irs + o, g.irs + n);
      assert stream[..n] + stream[n..n + |f.payload|] == stream[..n + |f.payload|];
    }
  }

  lemma AcceptDelivers(c: Connection, g: Log, f: Frame, stream: seq<byte>, now: u64, dev: Device)
    requires Inv(c, g) && TakesAck(c, f) && Decoded(f) && Prefix(c, g, stream)
    requires FromPeer(f, g.irs, stream, |ReceivedBytes(c, g)|)
    ensures var d := Accept(c, f, now, dev);
            d.generation == c.generation && Connected(d) && Prefix(d, g, stream) && |d.tx| <= |c.tx|
  {
    hide Accept, Inv, FromPeer, Accounted, Conserved, HasFin, HasRst, InWindowAck, Matches, TooLong;
    AcceptReceives(c, g, f, now, dev);
    ConnectedFits(c, g);
    if c.l.state == Established && f.segment.sequence == c.l.acknowledgement {
      InOrderExtends(c, g, f, stream);
      assert g.delivered + (c.rx + f.payload) == ReceivedBytes(c, g) + f.payload;
    }
  }

  /** From `c` to `d` either the connection ended, or no byte was received and
      only a FIN can have ended the peer's stream. */
  predicate Held(c: Connection, d: Connection, fin: bool) {
    || d.generation > c.generation
    || (&& d.generation == c.generation && d.rx == c.rx && |d.tx| <= |c.tx| && Live(d)
        && (Connected(d) ==> Connected(c))
        && (d.l.state == CloseWait ==> c.l.state == CloseWait)
        && (PeerDone(d.l.state) ==> PeerDone(c.l.state) || fin))
  }

  lemma SettleGeneration(c: Connection, r: Received, f: Frame, now: u64, dev: Device)
    ensures Settle(c, r, f, now, dev).generation >= c.generation
  {
    hide Respond, AcknowledgeFor;
    var c1 := c.(l := r.listener);
    AcknowledgeForFrame(c1, f.segment, now);
    RespondChanges(Deliver(AcknowledgeFor(c1, f.segment, now), c.l, f, now), r.reply, now, dev);
  }

  lemma ArriveGeneration(c: Connection, f: Frame, now: u64, dev: Device)
    ensures Arrive(c, f, now, dev).generation >= GiveWay(c, f.segment).generation >= c.generation
  {
    hide Settle, Receive, Send;
    var d := GiveWay(c, f.segment);
    SendChanges(d, CurrentAck(d), [], dev);
    SettleGeneration(d, Receive(d.l, f.segment), f, now, dev);
  }

  lemma SettleLeavingHolds(c: Connection, r: Received, f: Frame, now: u64, dev: Device)
    requires IsLeaving(c.l.state)
    requires r.listener.state == Listen ==> r.ok
    requires r.listener.state != Listen ==>
               IsLeaving(r.listener.state) &&
               (PeerDone(r.listener.state) ==> PeerDone(c.l.state) || HasFin(f.segment.flags))
    ensures Held(c, Settle(c, r, f, now, dev), HasFin(f.segment.flags))
  {
    hide Respond, AcknowledgeFor;
    var c1 := c.(l := r.listener);
    AcknowledgeForFrame(c1, f.segment, now);
    RespondChanges(Deliver(AcknowledgeFor(c1, f.segment, now), c.l, f, now), r.reply, now, dev);
  }

  lemma ResetSettle(c: Connection, r: Received, f: Frame, now: u64, dev: Device)
    requires r.ok && r.listener.state == Listen && c.l.state != Listen
    ensures Settle(c, r, f, now, dev).generation > c.generation
  {
    hide AcknowledgeFor, Respond, Deliver;
    AcknowledgeForFrame(c.(l := r.listener), f.segment, now);
  }

  lemma ResetOnRst(c: Connection, f: Frame, now: u64, dev: Device)
    requires c.l.state != Listen && Matches(c.l, f.segment) && HasRst(f.segment.flags)
    ensures Accept(c, f, now, dev).generation > c.generation
  {
    hide Respond, AcknowledgeFor;
    AcknowledgeForFrame(c.(l := Receive(c.l, f.segment).listener), f.segment, now);
  }

  lemma ArriveHolds(c: Connection, f: Frame, now: u64, dev: Device)
    requires Live(c) && !TakesAck(c, f)
    ensures Held(c, Arrive(c, f, now, dev), HasFin(f.segment.flags))
  {
    hide Settle, Receive, Send;
    ArriveGeneration(c, f, now, dev);
    if !Matches(c.l, f.segment) {
    } else if TooLong(c, f) {
      SendChanges(c, CurrentAck(c), [], dev);
    } else if IsLeaving(c.l.state) {
      ReceiveLeaving(c.l, f.segment);
      SettleLeavingHolds(c, Receive(c.l, f.segment), f, now, dev);
    } else if HasRst(f.segment.flags) {
      ResetOnRst(c, f, now, dev);
    } else {
      RefuseQuiet(c, f, now, dev);
    }
  }

  lemma RefuseQuiet(c: Connection, f: Frame, now: u64, dev: Device)
    requires Connected(c) && Matches(c.l, f.segment) && !HasRst(f.segment.flags)
    requires !InWindowAck(c.l, f.segment)
    ensures Accept(c, f, now, dev) == c.(l := c.l.(peerWindow := f.segment.window))
  {
    hide Respond, AcknowledgeFor, Deliver;
  }

  // ----- one step, every run

  /** The arrivals of the step, if any, come from the peer's stream. */
  ghost predicate FaithfulStep(c: Connection, g: Log, e: Event, stream: seq<byte>, dev: Device) {
    e.PollEvent? && e.arrival.Some? ==>
      && Decoded(e.arrival.value)
      && var c1 := Maintain(c, e.now, dev);
         c1.generation == c.generation ==>
           FromPeer(e.arrival.value, g.irs, stream, |ReceivedBytes(c1, g)|)
  }

  /** One step of a live connection: it ends, or the received prefix holds on. */
  ghost predicate Delivers(c: Connection, g: Log, d: Connection, h: Log, stream: seq<byte>) {
    || d.generation > c.generation
    || (d.generation == c.generation && Live(d) && Prefix(d, h, stream) &&
        h.irs == g.irs && h.iss == g.iss)
  }

  lemma ArriveDelivers(c: Connection, g: Log, f: Frame, stream: seq<byte>, now: u64, dev: Device)
    requires Inv(c, g) && Live(c) && Prefix(c, g, stream) && Decoded(f)
    requires FromPeer(f, g.irs, stream, |ReceivedBytes(c, g)|)
    ensures Delivers(c, g, Arrive(c, f, now, dev), LogArrive(g, c, f, now, dev), stream)
  {
    hide Accept, Inv, Send, NewlyAcked;
    if TakesAck(c, f) {
      AcceptDelivers(c, g, f, stream, now, dev);
    } else {
      ArriveHolds(c, f, now, dev);
    }
  }

  lemma StepDelivers(c: Connection, g: Log, e: Event, stream: seq<byte>, dev: Device)
    requires Inv(c, g) && Live(c) && Prefix(c, g, stream)
    requires FaithfulStep(c, g, e, stream, dev)
    ensures Delivers(c, g, Step(c, e, dev), LogStep(g, c, e, dev), stream)
  {
    hide Inv, Maintain, Arrive, LogArrive, FromPeer;
    match e
    case ReadEvent(capacity) =>
      var n := ReadCount(c, capacity);
      assert g.delivered + c.rx[..n] + c.rx[n..] == g.delivered + c.rx;
    case WriteEvent(data) =>
    case CloseEvent =>
    case PollEvent(now, late, arrival) =>
      MaintainQuiet(c, now, dev);
      MaintainKeeps(c, g, now, dev);
      var c1 := Maintain(c, now, dev);
      if arrival.Some? {
        ArriveGeneration(c1, arrival.value, late, dev);
        if c1.generation == c.generation {
          ArriveDelivers(c1, g, arrival.value, stream, late, dev);
        }
      }
  }

  lemma StepGeneration(c: Connection, e: Event, dev: Device)
    ensures Step(c, e, dev).generation >= c.generation
  {
    hide Maintain, Arrive;
    if e.PollEvent? {
      MaintainQuiet(c, e.now, dev);
      if e.arrival.Some? {
        ArriveGeneration(Maintain(c, e.now, dev), e.arrival.value, e.late, dev);
      }
    }
  }

  lemma {:induction false} RunGeneration(c: Connection, g: Log, events: seq<Event>, dev: Device)
    ensures Run(c, g, events, dev).0.generation >= c.generation
    decreases |events|
  {
    if events != [] {
      hide Step, LogStep;
      StepGeneration(c, events[0], dev);
      RunGeneration(Step(c, events[0], dev), LogStep(g, c, events[0], dev), events[1..], dev);
    }
  }

  /** As long as the connection lives, every arrival is a slice of the peer's
      stream: the network may lose, repeat and reorder, but not invent. */
  ghost predicate FaithfulRun(c: Connection, g: Log, events: seq<Event>, stream: seq<byte>, dev: Device)
    decreases |events|
  {
    events != [] ==>
      && FaithfulStep(c, g, events[0], stream, dev)
      && var d := Step(c, events[0], dev);
         d.generation == c.generation ==>
           FaithfulRun(d, LogStep(g, c, events[0], dev), events[1..], stream, dev)
  }

  /** Receive integrity.  As long as the connection lives, the bytes read followed
      by the bytes in the receive ring are exactly the prefix of the peer's stream
      that the acknowledgement number counts, plus one for an accepted FIN, and
      after that FIN they are the whole stream. */
  lemma {:induction false} ReceiveIntegrity(c: Connection, g: Log, events: seq<Event>,
                                            stream: seq<byte>, dev: Device)
    requires Inv(c, g) && Live(c) && Prefix(c, g, stream)
    requires FaithfulRun(c, g, events, stream, dev)
    ensures var (d, h) := Run(c, g, events, dev);
            d.generation == c.generation ==>
              && Prefix(d, h, stream) && h.irs == g.irs
              && (Connected(d) ==>
                    d.l.acknowledgement == U32(g.irs + |ReceivedBytes(d, h)| +
                                               if d.l.state == CloseWait then 1 else 0))
    decreases |events|
  {
    hide Step, LogStep, FaithfulStep, Fits, FramesOk;
    if events == [] {
      assert Connected(c) ==> Accounted(c.l, c.rx, g) by {
        if Connected(c) { ConnectedFits(c, g); }
      }
    } else {
      var d, h := Step(c, events[0], dev), LogStep(g, c, events[0], dev);
      assert DecodedEvent(events[0]) by { FaithfulIsDecoded(c, g, events[0], stream, dev); }
      StepKeeps(c, g, events[0], dev);
      StepDelivers(c, g, events[0], stream, dev);
      if d.generation == c.generation {
        ReceiveIntegrity(d, h, events[1..], stream, dev);
      } else {
        RunGeneration(d, h, events[1..], dev);
      }
    }
  }

  lemma FaithfulIsDecoded(c: Connection, g: Log, e: Event, stream: seq<byte>, dev: Device)
    requires FaithfulStep(c, g, e, stream, dev)
    ensures DecodedEvent(e)
  {
  }
}
