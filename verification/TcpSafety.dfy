/** What maintenance and sending keep. */
module TcpSafety {
  import opened Words
  import opened Sequences
  import opened Wrappers
  import opened TcpListener
  import opened TcpConnection
  import opened TcpSending

  // ----- history

  /** The history of a connection that was just established, whose handshake began
      with frame `base`. */
  function FreshLog(c: Connection, base: nat): Log {
    Log(c.l.sequence, c.l.acknowledgement, base, |c.rx|, [], 0, [])
  }

  /** Does the arriving segment reach the acknowledgement step of a connection? */
  predicate TakesAck(c: Connection, f: Frame) {
    Connected(c) && Matches(c.l, f.segment) && !TooLong(c, f) &&
    !HasRst(f.segment.flags) && InWindowAck(c.l, f.segment)
  }

  /** The bytes of the pending segments that acknowledgement `word` covers in
      unbounded arithmetic. */
  function NewlyAcked(c: Connection, g: Log, word: u32): nat {
    |Bytes(c.pending[..CoveredCount(c.pending, g.iss + g.acked, Unwrap(Next(c.pending, g), word))])|
  }

  predicate Establishes(c: Connection, d: Connection) {
    (c.l.state == SynSent || c.l.state == SynReceived) && d.l.state == Established
  }

  /** SYN-SENT answers an oversized segment with its still meaningless acknowledgement
      number 0; what it then has on the wire is no part of the connection. */
  predicate StrayAck(c: Connection, f: Frame) {
    c.l.state == SynSent && Matches(c.l, f.segment) && TooLong(c, f)
  }

  function LogArrive(g: Log, c: Connection, f: Frame, now: u64, dev: Device): Log {
    var d := Arrive(c, f, now, dev);
    if Establishes(c, d) then FreshLog(d, g.base)
    else if GiveWay(c, f.segment).l.state == Listen && d.l.state == SynReceived then g.(base := |c.wire|)
    else if StrayAck(c, f) then g.(base := |d.wire|)
    else if TakesAck(c, f)
    then g.(acked := g.acked + NewlyAcked(c, g, f.segment.acknowledgement))
    else g
  }

  function LogStep(g: Log, c: Connection, e: Event, dev: Device): Log {
    match e
    case ReadEvent(capacity) => g.(delivered := g.delivered + c.rx[..ReadCount(c, capacity)])
    case WriteEvent(data) => if CanWrite(c, data) then g.(written := g.written + data) else g
    case CloseEvent => g
    case PollEvent(now, late, arrival) =>
      match arrival
      case None => g
      case Some(f) => LogArrive(g, Maintain(c, now, dev), f, late, dev)
  }

  /** What the frame decoder guarantees of a frame. */
  predicate Decoded(f: Frame) {
    f.segment.length == |f.payload| <= FRAME_CAPACITY
  }

  predicate DecodedEvent(e: Event) {
    e.PollEvent? && e.arrival.Some? ==> Decoded(e.arrival.value)
  }

  // ----- frames

  /** The invariant looks at the listener, the rings, the pending segments, the
      close request and the wire only. */
  lemma InvSame(c: Connection, d: Connection, g: Log)
    requires Inv(c, g)
    requires d.l == c.l && d.rx == c.rx && d.tx == c.tx && d.pending == c.pending
    requires d.closeRequested == c.closeRequested && d.wire == c.wire
    ensures Inv(d, g)
  {
    hide Fits, FramesOk, HandshakeOk;
  }

  lemma ConnectedFits(c: Connection, g: Log)
    requires Inv(c, g) && Connected(c)
    ensures Accounted(c.l, c.rx, g) && Conserved(c.l, c.tx, c.pending, g)
  {
  }

  lemma LeavingFits(c: Connection, g: Log)
    requires Inv(c, g) && IsLeaving(c.l.state)
    ensures Accounted(c.l, c.rx, g) && Finished(c.l, c.pending, g)
  {
  }

  lemma SendChanges(c: Connection, s: Segment, payload: seq<byte>, dev: Device)
    ensures var d := Send(c, s, payload, dev).0;
            && d == c.(wire := d.wire, offers := d.offers, lastWindow := d.lastWindow)
            && (d.wire == c.wire || d.wire == c.wire + [OnWire(c, s, payload)])
            && (!Send(c, s, payload, dev).1 ==> d.wire == c.wire)
  {
  }

  lemma SendKeeps(c: Connection, g: Log, s: Segment, payload: seq<byte>, dev: Device)
    requires Inv(c, g)
    requires Live(c) ==> FrameOk(OnWire(c, s, payload), ReachOf(c, g), g)
    requires IsOpening(c.l.state) ==> payload == [] && HandshakeSegment(s, c.l)
    ensures Inv(Send(c, s, payload, dev).0, g)
  {
    hide Fits, FrameOk, Send, HasFin, HasSyn, HasAck;
    SendChanges(c, s, payload, dev);
  }

  /** A connection that got further only weakens what is claimed of its frames. */
  predicate Further(r: Reach, q: Reach) {
    (q.open ==> r.open) && r.sent <= q.sent && r.heard <= q.heard
  }

  lemma FramesOkFurther(wire: seq<Frame>, r: Reach, q: Reach, g: Log)
    requires FramesOk(wire, r, g) && Further(r, q)
    ensures FramesOk(wire, q, g)
  {
    forall k | g.base <= k < |wire|
      ensures FrameOk(wire[k], q, g)
    {
      assert FrameOk(wire[k], r, g);
    }
  }

  lemma ResetKeeps(c: Connection, g: Log)
    ensures Inv(ResetStream(c), g)
  {
  }

  /** The endpoint's own acknowledgement number is true. */
  lemma OwnAckIsTrue(c: Connection, g: Log)
    requires Inv(c, g) && Live(c)
    ensures WasTrue(c.l.acknowledgement, g, Heard(c.l.state, c.rx, g))
  {
    hide Conserved, Finished, FramesOk;
    assert AckIs(c.l.acknowledgement, g, Heard(c.l.state, c.rx, g));
  }

  lemma EmptyFrameOk(c: Connection, f: Frame, g: Log)
    requires Inv(c, g)
    requires f.payload == [] && !HasFin(f.segment.flags)
    requires HasAck(f.segment.flags) ==> f.segment.acknowledgement == c.l.acknowledgement
    ensures Live(c) ==> FrameOk(f, ReachOf(c, g), g)
  {
    hide Inv;
    if Live(c) { OwnAckIsTrue(c, g); }
  }

  /** Pending segment `i` sits in the flight where the segments before it end. */
  lemma {:induction false} PendingAt(p: seq<Pending>, at: int, i: nat)
    requires Tiled(p, at) && i < |p|
    ensures var b := |Bytes(p[..i])|;
            && b + |p[i].payload| <= |Bytes(p)|
            && Bytes(p)[b..b + |p[i].payload|] == p[i].payload
            && IsDataAt(p[i], at + b)
  {
    hide IsDataAt;
    PayloadIsBytes(p, at);
    if i > 0 {
      PendingAt(p[1..], at + |p[0].payload|, i - 1);
      assert p[..i][1..] == p[1..][..i - 1];
      assert Bytes(p[..i]) == p[0].payload + Bytes(p[1..][..i - 1]);
      var b := |Bytes(p[1..][..i - 1])|;
      SliceBehind(p[0].payload, Bytes(p[1..]), b, b + |p[i].payload|);
    } else {
      SliceBefore(p[0].payload, Bytes(p[1..]), 0, |p[0].payload|);
    }
  }

  lemma PayloadIsBytes(p: seq<Pending>, at: int)
    requires Tiled(p, at) && p != []
    ensures Bytes(p) == p[0].payload + Bytes(p[1..]) && Bytes(p[..0]) == []
  {
  }

  lemma SliceOfTail(w: seq<byte>, a: nat, flight: seq<byte>, tx: seq<byte>, b: nat, n: nat)
    requires a <= |w| && w[a..] == flight + tx && b + n <= |flight|
    ensures a + b + n <= |w| && w[a + b..a + b + n] == flight[b..b + n]
  {
    assert |w| == a + |flight| + |tx|;
    var tail := w[a..];
    assert tail[b..b + n] == flight[b..b + n];
    assert w[a + b..a + b + n] == tail[b..b + n] by {
      assert w[a + b..] == tail[b..];
      assert w[a + b..a + b + n] == w[a + b..][..n];
      assert tail[b..b + n] == tail[b..][..n];
    }
  }

  lemma PendingFrameOk(c: Connection, g: Log, i: nat)
    requires Inv(c, g) && i < |c.pending| && Live(c)
    ensures FrameOk(OnWire(c, c.pending[i].segment, c.pending[i].payload), ReachOf(c, g), g)
  {
    hide FramesOk, U32, Bytes, Tiled, WasTrue, Heard;
    var p := c.pending[i];
    var f := OnWire(c, p.segment, p.payload);
    assert p in c.pending;
    if Connected(c) {
      PendingAt(c.pending, g.iss + g.acked, i);
      SliceOfTail(g.written, g.acked, Bytes(c.pending), c.tx, |Bytes(c.pending[..i])|, |p.payload|);
      assert CarriesAt(f, g, g.acked + |Bytes(c.pending[..i])|);
    }
  }

  lemma OpeningPending(c: Connection, g: Log, i: nat)
    requires Inv(c, g) && i < |c.pending| && IsOpening(c.l.state)
    ensures c.pending[i].payload == [] && HandshakeSegment(c.pending[i].segment, c.l)
  {
    hide HandshakeOk, HandshakeSegment;
  }

  lemma {:induction false} Retimed(p: seq<Pending>, i: nat, q: Pending, at: int)
    requires i < |p|
    requires q.segment == p[i].segment && q.payload == p[i].payload && q.expected == p[i].expected
    ensures Bytes(p[i := q]) == Bytes(p)
    ensures Tiled(p[i := q], at) <==> Tiled(p, at)
  {
    if i == 0 {
      assert p[0 := q][1..] == p[1..];
    } else {
      assert p[i := q][1..] == p[1..][i - 1 := q];
      Retimed(p[1..], i - 1, q, at + |p[0].payload|);
    }
  }

  // ----- maintenance

  lemma RetimedFits(c: Connection, g: Log, i: nat, now: u64)
    requires Inv(c, g) && i < |c.pending|
    ensures Inv(c.(pending := c.pending[i := Resent(c.pending[i], now)]), g)
  {
    hide FramesOk, U32, HandshakeOk, HandshakeSegment, HasFin, HasSyn, WasTrue, Accounted, Bytes, Tiled;
    Retimed(c.pending, i, Resent(c.pending[i], now), g.iss + g.acked);
  }

  lemma ResendKeeps(c: Connection, g: Log, i: nat, now: u64, dev: Device)
    requires Inv(c, g) && i < |c.pending|
    ensures var p := c.pending[i];
            var sent := Send(c, p.segment, p.payload, dev).0;
            |sent.pending| == |c.pending| &&
            Inv(sent.(pending := sent.pending[i := Resent(p, now)]), g)
  {
    hide Inv, Send, FrameOk, IsHandshake, HandshakeSegment, Resent;
    var p := c.pending[i];
    if Live(c) { PendingFrameOk(c, g, i); }
    if IsOpening(c.l.state) { OpeningPending(c, g, i); }
    SendKeeps(c, g, p.segment, p.payload, dev);
    SendChanges(c, p.segment, p.payload, dev);
    RetimedFits(Send(c, p.segment, p.payload, dev).0, g, i, now);
  }

  lemma {:induction false} MaintainPendingKeeps(c: Connection, g: Log, i: nat, now: u64, dev: Device)
    requires Inv(c, g)
    ensures Inv(MaintainPendingFrom(c, i, now, dev), g)
    decreases |c.pending| - i
  {
    if i >= |c.pending| {
    } else if !Expired(c.pending[i], now) {
      MaintainPendingKeeps(c, g, i + 1, now, dev);
    } else if c.pending[i].retransmissions >= MAX_RETRANSMISSIONS {
      ResetKeeps(c, g);
    } else {
      var p := c.pending[i];
      ResendKeeps(c, g, i, now, dev);
      var sent := Send(c, p.segment, p.payload, dev).0;
      MaintainPendingKeeps(sent.(pending := sent.pending[i := Resent(p, now)]), g, i + 1, now, dev);
    }
  }

  lemma MaintainCloseKeeps(c: Connection, g: Log, now: u64)
    requires Inv(c, g)
    ensures Inv(MaintainClose(c, now), g)
  {
    hide Inv, ResetStream, U64;
    var started, waiting := c.(closeStarted := now), c.(timeWaitStarted := now);
    ResetKeeps(started, g);
    ResetKeeps(waiting, g);
    ResetKeeps(c, g);
    InvSame(c, started, g);
    InvSame(c, waiting, g);
  }

  lemma MaintainWindowKeeps(c: Connection, g: Log, dev: Device)
    requires Inv(c, g)
    ensures Inv(MaintainWindow(c, dev), g)
  {
    hide Inv, Send, FrameOk;
    var c1 := if c.windowChanged
              then c.(windowUpdate := c.windowUpdate || (c.lastWindow == 0 && Window(c) != 0),
                      windowChanged := false)
              else c;
    InvSame(c, c1, g);
    if Connected(c1) {
      EmptyFrameOk(c1, OnWire(c1, CurrentAck(c1), []), g);
      SendKeeps(c1, g, CurrentAck(c1), [], dev);
      var c2 := Send(c1, CurrentAck(c1), [], dev).0;
      InvSame(c2, c2.(windowUpdate := false), g);
    }
  }

  lemma QueuedAt(w: seq<byte>, a: nat, flight: seq<byte>, tx: seq<byte>, n: nat)
    requires a <= |w| && w[a..] == flight + tx && n <= |tx|
    ensures var o := a + |flight|;
            o + n <= |w| && w[o..o + n] == tx[..n]
  {
    assert |w| == a + |flight| + |tx|;
    assert w[a + |flight|..] == w[a..][|flight|..] == tx;
    assert w[a + |flight|..a + |flight| + n] == w[a + |flight|..][..n];
  }

  lemma DataFrameOk(c: Connection, g: Log)
    requires Connected(c) && Inv(c, g)
    ensures var n := ChunkLength(c);
            FrameOk(OnWire(c, DataSegment(c, n), c.tx[..n]),
                    ReachOf(c, g).(sent := ReachOf(c, g).sent + n), g)
  {
    hide FramesOk, U32, Bytes, Tiled, WasTrue, Heard;
    var n := ChunkLength(c);
    OwnAckIsTrue(c, g);
    QueuedAt(g.written, g.acked, Bytes(c.pending), c.tx, n);
    assert CarriesAt(OnWire(c, DataSegment(c, n), c.tx[..n]), g, g.acked + |Bytes(c.pending)|);
  }

  /** A data segment joins the flight: the invariant holds again once the segment
      is remembered and the send point moved past it. */
  lemma AdvanceKeeps(c: Connection, g: Log, now: u64, n: nat, s: Segment)
    requires Connected(c) && Fits(c.l, c.rx, c.tx, c.closeRequested, c.pending, g)
    requires |c.pending| < PENDING_CAPACITY && 1 <= n <= ChunkLength(c)
    requires s.flags == ACK + PSH && s.sequence == c.l.sequence
    requires s.acknowledgement == c.l.acknowledgement
    ensures var d := Advance(c.(pending := c.pending + [PendingFor(c, now, s, c.tx[..n])]), n);
            && Fits(d.l, d.rx, d.tx, d.closeRequested, d.pending, g)
            && ReachOf(d, g) == ReachOf(c, g).(sent := ReachOf(c, g).sent + n)
  {
    hide Tiled, Bytes, U32, HandshakeSegment, Finished, Opening;
    var q := PendingFor(c, now, s, c.tx[..n]);
    BytesAppend(c.pending, q);
    U32Add(Next(c.pending, g), n);
    TiledAppend(c.pending, q, g.iss + g.acked);
    assert Bytes(c.pending) + c.tx == Bytes(c.pending) + c.tx[..n] + c.tx[n..];
    assert AckIs(c.l.acknowledgement, g, Heard(c.l.state, c.rx, g));
  }

  lemma FramesOkSent(wire: seq<Frame>, r: Reach, q: Reach, f: Frame, g: Log)
    requires FramesOk(wire, r, g) && Further(r, q) && FrameOk(f, q, g)
    ensures FramesOk(wire + [f], q, g) && FramesOk(wire, q, g)
  {
    hide FrameOk;
    FramesOkFurther(wire, r, q, g);
  }

  /** One turn of the transmit loop that the device accepts. */
  lemma FlushOnceKeeps(c: Connection, g: Log, now: u64, dev: Device)
    requires Connected(c) && Inv(c, g)
    requires |c.pending| < PENDING_CAPACITY && ChunkLength(c) > 0
    ensures var n := ChunkLength(c);
            var s := DataSegment(c, n);
            var c1 := Send(c, s, c.tx[..n], dev).0;
            && c1 == c.(wire := c1.wire, offers := c1.offers, lastWindow := c1.lastWindow)
            && Inv(Advance(c1.(pending := c1.pending + [PendingFor(c1, now, s, c.tx[..n])]), n), g)
  {
    hide FrameOk, Send, Fits, FramesOk, PendingFor, OnWire, U32, Bytes, Heard;
    var n := ChunkLength(c);
    var s := DataSegment(c, n);
    DataFrameOk(c, g);
    SendChanges(c, s, c.tx[..n], dev);
    var r := ReachOf(c, g);
    FramesOkSent(c.wire, r, r.(sent := r.sent + n), OnWire(c, s, c.tx[..n]), g);
    AdvanceKeeps(Send(c, s, c.tx[..n], dev).0, g, now, n, s);
  }

  lemma {:induction false} FlushLoopKeeps(c: Connection, g: Log, now: u64, dev: Device)
    requires Connected(c) && Inv(c, g)
    ensures Inv(FlushLoop(c, now, dev), g) && Connected(FlushLoop(c, now, dev))
    decreases |c.tx|
  {
    hide Fits, FramesOk, HandshakeOk, Send, OnWire, PendingFor, U32, FlushLoop;
    FlushTurn(c, now, dev);
    if |c.pending| >= PENDING_CAPACITY || c.tx == [] || c.l.peerWindow == 0 || ChunkLength(c) == 0 {
    } else {
      var n := ChunkLength(c);
      var s := DataSegment(c, n);
      FlushOnceKeeps(c, g, now, dev);
      SendChanges(c, s, c.tx[..n], dev);
      var (c1, ok) := Send(c, s, c.tx[..n], dev);
      if ok {
        FlushLoopKeeps(Advance(c1.(pending := c1.pending + [PendingFor(c1, now, s, c.tx[..n])]), n),
                       g, now, dev);
      }
    }
  }

  lemma FlushKeeps(c: Connection, g: Log, now: u64, dev: Device)
    requires Inv(c, g)
    ensures Inv(Flush(c, now, dev), g)
  {
    if Connected(c) { FlushLoopKeeps(c, g, now, dev); }
  }

  /** The FIN is built only when nothing is queued and nothing is in flight, so
      everything that was written is acknowledged. */
  lemma BeginCloseKeeps(c: Connection, g: Log)
    requires Connected(c) && Inv(c, g) && c.tx == [] && c.pending == []
    ensures g.acked == |g.written|
    ensures var (l, fin) := BeginClose(c.l);
            var d := c.(l := l, closeRequested := false);
            && Inv(d, g) && FrameOk(OnWire(d, fin, []), ReachOf(d, g), g)
            && IsFinAt(PendingFor(d, 0, fin, []), g.iss + |g.written|)
            && fin.acknowledgement == d.l.acknowledgement
  {
    hide FrameOk, U32, HandshakeOk, AckIs;
    assert |g.written[g.acked..]| == 0;
    U32Add(g.iss + |g.written|, 1);
    var d := c.(l := BeginClose(c.l).0, closeRequested := false);
    FramesOkFurther(c.wire, ReachOf(c, g), ReachOf(d, g), g);
    FinFrameOk(d, g, BeginClose(c.l).1);
  }

  lemma FinFrameOk(d: Connection, g: Log, fin: Segment)
    requires Inv(d, g) && IsLeaving(d.l.state) && fin.flags == FIN + ACK
    requires fin.sequence == U32(g.iss + |g.written|) && fin.acknowledgement == d.l.acknowledgement
    ensures FrameOk(OnWire(d, fin, []), ReachOf(d, g), g)
  {
    OwnAckIsTrue(d, g);
  }

  lemma RememberFinKeeps(c: Connection, g: Log, now: u64, fin: Segment)
    requires Inv(c, g) && c.pending == [] && IsLeaving(c.l.state)
    requires IsFinAt(PendingFor(c, 0, fin, []), g.iss + |g.written|)
    requires fin.acknowledgement == c.l.acknowledgement
    ensures Inv(Remember(c, now, fin, []).0, g)
  {
    hide FramesOk, WasTrue, IsFinAt, Accounted, PendingFor, Bytes, U32, HandshakeOk, Opening, Conserved, Heard;
    var q := PendingFor(c, now, fin, []);
    FinPending(c, now, fin, g.iss + |g.written|);
    assert c.pending + [q] == [q];
    OwnAckIsTrue(c, g);
    assert c.pending == [];
  }

  lemma FinPending(c: Connection, now: u64, fin: Segment, at: int)
    requires IsFinAt(PendingFor(c, 0, fin, []), at)
    ensures var q := PendingFor(c, now, fin, []);
            IsFinAt(q, at) && q.segment == fin && Bytes([q]) == [] && Bytes([]) == []
  {
    hide U32;
    var q := PendingFor(c, now, fin, []);
    assert Bytes([q]) == q.payload + Bytes([q][1..]);
  }

  lemma SendFinKeeps(c: Connection, g: Log, now: u64, dev: Device)
    requires Connected(c) && Inv(c, g) && c.tx == [] && c.pending == []
    ensures var (l, fin) := BeginClose(c.l);
            var d := Send(c.(l := l, closeRequested := false), fin, [], dev).0;
            Inv(ResetStream(d), g) && Inv(Remember(d, now, fin, []).0, g)
  {
    hide Inv, Send, ResetStream, Remember, FrameOk, PendingFor;
    BeginCloseKeeps(c, g);
    var (l, fin) := BeginClose(c.l);
    var quiet := c.(l := l, closeRequested := false);
    SendKeeps(quiet, g, fin, [], dev);
    SendChanges(quiet, fin, [], dev);
    var d := Send(quiet, fin, [], dev).0;
    assert PendingFor(d, 0, fin, []) == PendingFor(quiet, 0, fin, []) by { SamePending(d, quiet, fin); }
    RememberFinKeeps(d, g, now, fin);
    ResetKeeps(d, g);
  }

  lemma SamePending(c: Connection, d: Connection, s: Segment)
    requires c.rtt == d.rtt
    ensures PendingFor(c, 0, s, []) == PendingFor(d, 0, s, [])
  {
  }

  lemma MaintainStreamCloseKeeps(c: Connection, g: Log, now: u64, dev: Device)
    requires Inv(c, g)
    ensures Inv(MaintainStreamClose(c, now, dev), g)
  {
    hide Fits, FramesOk, Send, ResetStream;
    var c1 := if c.closeStarted == 0 then c.(closeStarted := now) else c;
    ResetKeeps(c, g);
    if Connected(c1) && c1.tx == [] && c1.pending == [] {
      SendFinKeeps(c1, g, now, dev);
    }
  }

  lemma MaintainKeeps(c: Connection, g: Log, now: u64, dev: Device)
    requires Inv(c, g)
    ensures Inv(Maintain(c, now, dev), g)
  {
    var c1 := MaintainPending(c, now, dev);
    MaintainPendingKeeps(c, g, 0, now, dev);
    var c2 := MaintainClose(c1, now);
    MaintainCloseKeeps(c1, g, now);
    var c3 := MaintainWindow(c2, dev);
    MaintainWindowKeeps(c2, g, dev);
    FlushKeeps(c3, g, now, dev);
    MaintainStreamCloseKeeps(Flush(c3, now, dev), g, now, dev);
  }
}
