/** Messages that fill the peer's window. */
module TcpFlow {
  import opened Words
  import opened Wrappers
  import opened TcpListener
  import opened TcpConnection
  import opened TcpProgress
  import opened TcpWindows
  import TcpConversation
  import TcpSending

  // A block of up to 8192 bytes is written at once.  It leaves in segments as large as the
  // peer's window allows, so the window shuts whenever 512 bytes have gone out, and only the
  // window update of the reader lets the rest follow.

  /** Ready for a block: nothing in flight, the reader's ring empty, the window not shut. */
  predicate Open(a: Connection, b: Connection) {
    && Still(a) && Still(b) && Facing(a, b) && b.rx == [] && Window(a) != 0
    && 0 < a.l.peerWindow <= RECEIVE_CAPACITY <= a.l.peerMss
  }

  // ----- the sender

  /** The endpoint after the first `n` bytes of its queue went out in one segment. */
  function SentPart(c: Connection, n: nat, now: u64): Connection
    requires n <= |c.tx| && n <= c.l.peerWindow
  {
    var s := DataSegment(c, n);
    c.(offers := c.offers + 1, wire := c.wire + [OnWire(c, s, c.tx[..n])], lastWindow := Window(c),
       pending := [PendingFor(c, now, s, c.tx[..n])], tx := c.tx[n..],
       l := c.l.(sequence := U32(c.l.sequence + n), peerWindow := c.l.peerWindow - n))
  }

  /** Something is queued, nothing in flight, and the window lets one segment go. */
  predicate CanPour(c: Connection) {
    && c.l.state == Established && c.pending == [] && c.tx != []
    && 0 < c.l.peerWindow <= RECEIVE_CAPACITY <= c.l.peerMss
    && !c.closeRequested && !c.windowUpdate && !c.windowChanged && c.rtt.timeout > 0 && Window(c) != 0
  }

  lemma FlushesPart(c: Connection, now: u64, dev: Device)
    requires CanPour(c) && TakesAll(dev)
    ensures FlushLoop(c, now, dev) == SentPart(c, Min(|c.tx|, c.l.peerWindow), now)
  {
    hide OnWire, PendingFor, FlushLoop, U32;
    var n := Min(|c.tx|, c.l.peerWindow);
    assert Takes(dev, c.offers) && ChunkLength(c) == n;
    TcpSending.FlushTurn(c, now, dev);
    var s := DataSegment(c, n);
    var c1 := Send(c, s, c.tx[..n], dev).0;
    assert c1.pending + [PendingFor(c1, now, s, c.tx[..n])] == [PendingFor(c, now, s, c.tx[..n])] by {
      SameTimeout(c, c1, now, s, c.tx[..n]);
    }
    TcpSending.FlushTurn(SentPart(c, n, now), now, dev);
  }

  /** One segment in flight, just sent; more is queued only if the window is shut. */
  predicate Pours(c: Connection, now: u64) {
    && c.l.state == Established && |c.pending| == 1 && (c.tx == [] || c.l.peerWindow == 0)
    && !c.closeRequested && !c.windowUpdate && !c.windowChanged && c.lastWindow != 0 && c.rtt.timeout > 0
    && RECEIVE_CAPACITY <= c.l.peerMss && Window(c) != 0 && c.wire != []
    && c.pending[0].sentAt == now && c.pending[0].timeout > 0 && c.pending[0].expected == c.l.sequence
  }

  /** The segment in flight is what `b` expects next. */
  predicate PoursInto(c: Connection, b: Connection, now: u64) {
    && Pours(c, now) && InOrderData(b, Last(c)) && Last(c).segment.window == Window(c)
    && c.l.local == b.l.peer && c.l.peer == b.l.local && c.l.port == b.l.peerPort && c.l.peerPort == b.l.port
    && c.l.sequence == U32(b.l.acknowledgement + |Last(c).payload|) && c.l.acknowledgement == b.l.sequence
  }

  lemma PartPours(q: Connection, b: Connection, now: u64)
    requires CanPour(q) && Facing(q, b) && b.rx == []
    ensures var c := SentPart(q, Min(|q.tx|, q.l.peerWindow), now);
            && PoursInto(c, b, now) && Last(c).payload + c.tx == q.tx && |c.tx| < |q.tx|
            && c.l.peerMss == q.l.peerMss && c.rx == q.rx
  {
    hide U32;
    var n := Min(|q.tx|, q.l.peerWindow);
    assert q.tx[..n] + q.tx[n..] == q.tx;
  }

  /** While the window is shut, or nothing is queued, maintenance has nothing to do. */
  lemma NothingToDo(c: Connection, now: u64, dev: Device)
    requires c.l.state == Established && |c.pending| <= 1 && (c.tx == [] || c.l.peerWindow == 0)
    requires !c.closeRequested && !c.windowUpdate && !c.windowChanged
    requires c.pending != [] ==> c.pending[0].sentAt == now && c.pending[0].timeout > 0
    ensures Maintain(c, now, dev) == c
  {
    hide Send;
    U64Small(0);
    if c.pending != [] {
      assert !Expired(c.pending[0], now);
      assert MaintainPendingFrom(c, 1, now, dev) == c;
    }
    assert MaintainPendingFrom(c, 0, now, dev) == c;
  }

  /** A pure acknowledgement of everything, with window `w`. */
  lemma AckSettles(c: Connection, f: Frame, now: u64, dev: Device)
    requires c.l.state == Established && AcksAll(c, f)
    ensures var e := c.(l := c.l.(peerWindow := f.segment.window));
            Arrive(c, f, now, dev) == Flush(AcknowledgeFor(e, f.segment, now), now, dev)
  {
    hide Receive, AcknowledgeFor, Flush;
    ReceivesAck(c.l, f.segment);
    var e := c.(l := c.l.(peerWindow := f.segment.window));
    TcpSending.AcknowledgeFrame(e, now, f.segment.acknowledgement);
    AcknowledgeForIs(e, f.segment, now);
    var r := AcknowledgeFor(e, f.segment, now);
    assert Deliver(r, c.l, f, now) == r;
  }

  lemma AcknowledgeForIs(c: Connection, s: Segment, now: u64)
    requires s.flags == ACK
    ensures AcknowledgeFor(c, s, now) == Acknowledge(c, now, s.acknowledgement)
  {
    hide Acknowledge;
  }

  /** The endpoint when the segment is acknowledged and the window is `w`. */
  predicate Emptied(d: Connection, c: Connection, w: u16) {
    d == c.(pending := [], rtt := d.rtt, l := c.l.(peerWindow := w)) && d.rtt.timeout > 0
  }

  /** The acknowledgement of the segment in flight: the rest follows as far as the window
      lets it. */
  lemma AckPours(c: Connection, f: Frame, now: u64, dev: Device)
    requires Pours(c, now) && AcksAll(c, f) && TakesAll(dev)
    ensures exists e :: Emptied(e, c, f.segment.window) && Poll(c, now, now, Some(f), dev) == Flush(e, now, dev)
  {
    hide Maintain, AcknowledgeFor, Flush, Arrive;
    NothingToDo(c, now, dev);
    AckSettles(c, f, now, dev);
    var e := c.(l := c.l.(peerWindow := f.segment.window));
    ReleasesOne(e, f.segment, now);
    assert Emptied(AcknowledgeFor(e, f.segment, now), c, f.segment.window);
  }

  // ----- the reader

  lemma TakesAndTells(b: Connection, f: Frame, now: u64, dev: Device)
    requires Still(b) && b.rx == [] && InOrderData(b, f) && TakesAll(dev)
    ensures var d := Poll(b, now, now, Some(f), dev);
            && d == Took(b, f) && d.rx == f.payload && d.wire != [] && Last(d).payload == []
            && Last(d).segment == Segment(b.l.local, b.l.peer, b.l.port, b.l.peerPort, b.l.sequence,
                                          U32(b.l.acknowledgement + |f.payload|), ACK, RECEIVE_CAPACITY - |f.payload|, 0, 0)
  {
    hide Poll, U32;
    PollTakes(b, f, now, now, dev);
    assert [] + f.payload == f.payload;
  }

  /** The reader empties its ring and polls.  If the window was shut, that is announced. */
  lemma ReadsAndReopens(b: Connection, f: Frame, now: u64, dev: Device)
    requires Still(b) && b.rx == [] && InOrderData(b, f) && TakesAll(dev)
    ensures var d := Took(b, f);
            var e := Maintain(Read(d, RECEIVE_CAPACITY), now, dev);
            && Still(e) && e.rx == [] && e.l == d.l
            && (if |f.payload| == RECEIVE_CAPACITY
                then e.wire == d.wire + [Announcement(e)] else e.wire == d.wire)
  {
    hide Maintain, U32, OnWire;
    var d := Took(b, f);
    var r := Read(d, RECEIVE_CAPACITY);
    assert r.rx == [];
    if |f.payload| == RECEIVE_CAPACITY {
      Reopens(r, now, dev);
    } else {
      StillMaintain(r, now, dev);
    }
  }

  /** An idle endpoint that has to announce its window does so, and is still again. */
  lemma Reopens(c: Connection, now: u64, dev: Device)
    requires c.l.state == Established && c.tx == [] && c.pending == [] && !c.closeRequested && TakesAll(dev)
    requires Stuck(c) && c.windowChanged && c.rtt.timeout > 0
    ensures var d := Maintain(c, now, dev);
            && d == c.(windowChanged := false, windowUpdate := false, offers := c.offers + 1,
                       wire := c.wire + [Announcement(c)], lastWindow := Window(c))
            && Still(d) && Announcement(d) == Announcement(c)
  {
    hide MaintainWindow;
    assert Takes(dev, c.offers);
    UpdateGoesOut(c, dev);
    assert MaintainPendingFrom(c, 0, now, dev) == c;
  }

  // ----- one segment

  /** The segment in flight is taken and acknowledged, the reader reads and polls, and the
      sender hears the window update if there is one. */
  function Round(a: Connection, b: Connection, now: u64, da: Device, db: Device): (Connection, Connection, seq<byte>)
    requires a.wire != []
  {
    var b1 := Poll(b, now, now, Some(Last(a)), db);
    var a1 := if b1.wire == [] then a else Poll(a, now, now, Some(Last(b1)), da);
    var b2 := Maintain(Read(b1, RECEIVE_CAPACITY), now, db);
    var a2 := if |b2.wire| > |b1.wire| then Poll(a1, now, now, Some(Last(b2)), da) else a1;
    (a2, b2, b1.rx)
  }

  /** Either the rest is on its way again, or there is none. */
  predicate GoesOn(a: Connection, b: Connection, rest: seq<byte>, now: u64) {
    && Still(b) && b.rx == []
    && if rest != [] then PoursInto(a, b, now) && Last(a).payload + a.tx == rest && |a.tx| < |rest|
       else Open(a, b)
  }

  lemma RoundMoves(a: Connection, b: Connection, now: u64, da: Device, db: Device)
    requires PoursInto(a, b, now) && Still(b) && b.rx == [] && TakesAll(da) && TakesAll(db)
    ensures var (c, d, got) := Round(a, b, now, da, db);
            got == Last(a).payload && GoesOn(c, d, a.tx, now)
  {
    hide Poll, Maintain, U32, OnWire, Pours, TakesAll, Emptied, GoesOn, Took;
    PoursHasWire(a, b, now);
    var f := Last(a);
    TakesAndTells(b, f, now, db);
    ReadsAndReopens(b, f, now, db);
    var b1 := Took(b, f);
    TookIs(b, f);
    var b2 := Maintain(Read(b1, RECEIVE_CAPACITY), now, db);
    assert AcksAll(a, Last(b1));
    AckPours(a, Last(b1), now, da);
    var w := RECEIVE_CAPACITY - |f.payload|;
    var e :| Emptied(e, a, w) && Poll(a, now, now, Some(Last(b1)), da) == Flush(e, now, da);
    PoursIs(a, now);
    if w > 0 {
      FlushGoesOn(e, a, b2, w, now, da);
    } else {
      ShutWaits(e, a, now, da);
      assert Last(b2) == Announcement(b2);
      ReopenedGoesOn(e, a, b2, Last(b2), now, da);
    }
  }

  lemma TookIs(b: Connection, f: Frame)
    requires Still(b) && b.rx == [] && InOrderData(b, f)
    ensures var d := Took(b, f);
            && d.l.sequence == b.l.sequence && d.l.acknowledgement == U32(b.l.acknowledgement + |f.payload|)
            && d.l.local == b.l.local && d.l.peer == b.l.peer && d.l.port == b.l.port && d.l.peerPort == b.l.peerPort
  {
    hide U32, OnWire;
  }

  lemma PoursIs(a: Connection, now: u64)
    requires Pours(a, now)
    ensures a.l.state == Established && (a.tx == [] || a.l.peerWindow == 0)
  {
  }

  predicate Faces(a: Connection, b: Connection) {
    Still(b) && b.rx == [] && Facing(a, b)
  }

  /** With the segment acknowledged and room left, what is queued goes out at once. */
  lemma FlushGoesOn(e: Connection, a: Connection, b: Connection, w: u16, now: u64, dev: Device)
    requires Emptied(e, a, w) && Pours(a, now) && 0 < w <= RECEIVE_CAPACITY && Faces(a, b) && TakesAll(dev)
    ensures GoesOn(Flush(e, now, dev), b, a.tx, now)
  {
    hide FlushLoop, U32, OnWire, SentPart;
    if a.tx != [] {
      FlushesPart(e, now, dev);
      PartPours(e, b, now);
    } else {
      TcpSending.FlushTurn(e, now, dev);
    }
  }

  /** With the window shut nothing moves. */
  lemma ShutWaits(e: Connection, a: Connection, now: u64, dev: Device)
    requires Emptied(e, a, 0) && Pours(a, now)
    ensures Flush(e, now, dev) == e && Maintain(e, now, dev) == e
  {
    hide U32;
    NothingToDo(e, now, dev);
  }

  /** The window update lets the rest follow. */
  lemma ReopenedGoesOn(e: Connection, a: Connection, b: Connection, f: Frame, now: u64, dev: Device)
    requires Emptied(e, a, 0) && Pours(a, now) && Faces(a, b) && TakesAll(dev) && f == Announcement(b)
    ensures GoesOn(Poll(e, now, now, Some(f), dev), b, a.tx, now)
  {
    hide Maintain, Arrive, Flush, U32, AcknowledgeFor, TakesAll, GoesOn;
    ShutWaits(e, a, now, dev);
    AckSettles(e, f, now, dev);
    var o := e.(l := e.l.(peerWindow := f.segment.window));
    TcpSending.NothingToRelease(o, f.segment, now);
    FlushGoesOn(o, a, b, f.segment.window, now, dev);
  }

  // ----- one block, any message

  /** Rounds until the queue is empty. */
  function Drain(a: Connection, b: Connection, now: u64, da: Device, db: Device): (Connection, Connection, seq<byte>)
    decreases |a.tx|
  {
    if a.wire == [] then (a, b, [])
    else
      var (c, d, got) := Round(a, b, now, da, db);
      if |c.tx| >= |a.tx| then (c, d, got)
      else
        var (x, y, more) := Drain(c, d, now, da, db);
        (x, y, got + more)
  }

  lemma {:induction false} DrainDelivers(a: Connection, b: Connection, now: u64, da: Device, db: Device)
    requires PoursInto(a, b, now) && Still(b) && b.rx == [] && TakesAll(da) && TakesAll(db)
    ensures var (c, d, got) := Drain(a, b, now, da, db);
            got == Last(a).payload + a.tx && Open(c, d)
    decreases |a.tx|
  {
    hide Round, TakesAll, Still, Open, PoursInto;
    RoundMoves(a, b, now, da, db);
    assert a.wire != [] by { PoursHasWire(a, b, now); }
    var (c, d, got) := Round(a, b, now, da, db);
    if a.tx == [] {
      assert got + [] == got;
    } else {
      DrainDelivers(c, d, now, da, db);
      var rest := Drain(c, d, now, da, db).2;
      assert rest == a.tx;
    }
  }

  lemma PoursHasWire(a: Connection, b: Connection, now: u64)
    requires PoursInto(a, b, now)
    ensures a.wire != []
  {
  }

  /** A block is written at once and the sender polls; then everything runs its course. */
  function SendBlock(a: Connection, b: Connection, data: seq<byte>, now: u64, da: Device, db: Device)
    : (Connection, Connection, seq<byte>)
  {
    Drain(Maintain(Write(a, data), now, da), b, now, da, db)
  }

  lemma WritePours(a: Connection, b: Connection, data: seq<byte>, now: u64, dev: Device)
    requires Open(a, b) && 0 < |data| <= TRANSMIT_CAPACITY && TakesAll(dev)
    ensures var c := Maintain(Write(a, data), now, dev);
            PoursInto(c, b, now) && Last(c).payload + c.tx == data
  {
    hide FlushLoop, Send, U32, OnWire, SentPart, TakesAll;
    assert [] + data == data;
    var q := a.(tx := data, windowChanged := false);
    assert MaintainWindow(Write(a, data), dev) == q;
    FlushesPart(q, now, dev);
    PartPours(q, b, now);
    var n := Min(|data|, q.l.peerWindow);
    SentPartCloses(q, n, now);
    assert Maintain(Write(a, data), now, dev) == SentPart(q, n, now);
  }

  lemma SentPartCloses(c: Connection, n: nat, now: u64)
    requires n <= |c.tx| && n <= c.l.peerWindow
    ensures SentPart(c, n, now).closeRequested == c.closeRequested
  {
  }

  /** A block of any size up to the whole transmit ring is read at the other end, byte for
      byte, through as many shut windows as it takes, and both ends are ready again. */
  lemma BlockIsRead(a: Connection, b: Connection, data: seq<byte>, now: u64, da: Device, db: Device)
    requires Open(a, b) && 0 < |data| <= TRANSMIT_CAPACITY && TakesAll(da) && TakesAll(db)
    ensures var (c, d, got) := SendBlock(a, b, data, now, da, db);
            got == data && Open(c, d)
  {
    hide Maintain, Write, Drain, TakesAll, PoursInto;
    WritePours(a, b, data, now, da);
    DrainDelivers(Maintain(Write(a, data), now, da), b, now, da, db);
  }

  function Joined(blocks: seq<seq<byte>>): seq<byte> {
    if blocks == [] then [] else blocks[0] + Joined(blocks[1..])
  }

  function SendBlocks(a: Connection, b: Connection, blocks: seq<seq<byte>>, now: u64, da: Device, db: Device)
    : (Connection, Connection, seq<byte>)
    decreases |blocks|
  {
    if blocks == [] then (a, b, [])
    else
      var (c, d, got) := SendBlock(a, b, blocks[0], now, da, db);
      var (x, y, more) := SendBlocks(c, d, blocks[1..], now, da, db);
      (x, y, got + more)
  }

  /** A message of any length, however it is cut into writes. */
  lemma {:induction false} BlocksAreRead(a: Connection, b: Connection, blocks: seq<seq<byte>>, now: u64,
                                         da: Device, db: Device)
    requires Open(a, b) && TakesAll(da) && TakesAll(db)
    requires forall x :: x in blocks ==> 0 < |x| <= TRANSMIT_CAPACITY
    ensures var (c, d, got) := SendBlocks(a, b, blocks, now, da, db);
            got == Joined(blocks) && Open(c, d)
    decreases |blocks|
  {
    hide SendBlock, Open, TakesAll;
    if blocks != [] {
      assert blocks[0] in blocks && forall x :: x in blocks[1..] ==> x in blocks;
      BlockIsRead(a, b, blocks[0], now, da, db);
      var (c, d, got) := SendBlock(a, b, blocks[0], now, da, db);
      BlocksAreRead(c, d, blocks[1..], now, da, db);
    }
  }

  /** From two idle endpoints: connect, then write whatever the transmit ring holds. */
  lemma ConnectAndFill(a: Connection, b: Connection, local: Address, port: u16, peer: Address,
                       blocks: seq<seq<byte>>, now: u64, da: Device, db: Device)
    requires TcpConversation.Idle(a) && TcpConversation.Idle(b) && TakesAll(da) && TakesAll(db)
    requires forall x :: x in blocks ==> 0 < |x| <= TRANSMIT_CAPACITY
    ensures var (c, d) := TcpConversation.Handshake(a, b, local, port, peer, now, da, db);
            && SendBlocks(c, d, blocks, now, da, db).2 == Joined(blocks)
            && SendBlocks(d, c, blocks, now, db, da).2 == Joined(blocks)
  {
    hide TcpConversation.Handshake, SendBlocks, TcpConversation.Idle, TakesAll;
    TcpConversation.HandshakeConnects(a, b, local, port, peer, now, da, db);
    var (c, d) := TcpConversation.Handshake(a, b, local, port, peer, now, da, db);
    BlocksAreRead(c, d, blocks, now, da, db);
    BlocksAreRead(d, c, blocks, now, db, da);
  }
}
