/** Send integrity of one TCP endpoint: what is written, what is in flight, what
    is acknowledged, and what every frame on the wire carries. */
module TcpSending {
  import opened Words
  import opened Sequences
  import opened TcpListener
  import opened TcpConnection

  /** The history of one connection.  `iss` and `irs` are the unbounded sequence
      positions of the first byte in each direction, `base` the number of frames on
      the wire before its handshake, `early` the number of bytes that were already
      queued when it was established. */
  datatype Log = Log(iss: int, irs: int, base: nat, early: nat,
                     written: seq<byte>, acked: nat, delivered: seq<byte>)

  /** The payloads of the pending segments, in ring order. */
  function Bytes(p: seq<Pending>): seq<byte> {
    if p == [] then [] else p[0].payload + Bytes(p[1..])
  }

  predicate IsDataAt(p: Pending, at: int) {
    && 1 <= |p.payload| <= PENDING_PAYLOAD
    && p.segment.flags == ACK + PSH
    && p.segment.sequence == U32(at)
    && p.expected == U32(at + |p.payload|)
  }

  /** Pending data segments tile the sequence space from `at` on. */
  predicate Tiled(p: seq<Pending>, at: int) {
    p == [] || (IsDataAt(p[0], at) && Tiled(p[1..], at + |p[0].payload|))
  }

  function Next(pending: seq<Pending>, g: Log): int {
    g.iss + g.acked + |Bytes(pending)|
  }

  /** Everything accepted from the application is acknowledged, in flight, or queued. */
  predicate Conserved(l: Listener, tx: seq<byte>, pending: seq<Pending>, g: Log) {
    && g.acked <= |g.written|
    && g.written[g.acked..] == Bytes(pending) + tx
    && Tiled(pending, g.iss + g.acked)
    && l.sequence == U32(Next(pending, g))
  }

  predicate IsLeaving(s: State) {
    IsClosing(s) || s == TimeWait
  }

  /** From ESTABLISHED until the connection is gone. */
  predicate Live(c: Connection) {
    Connected(c) || IsLeaving(c.l.state)
  }

  /** The states after the peer's FIN. */
  predicate PeerDone(s: State) {
    s == CloseWait || s == LastAck || s == Closing || s == TimeWait
  }

  /** How much of the peer's sequence space the endpoint has taken. */
  function Heard(s: State, rx: seq<byte>, g: Log): int {
    |g.delivered| + |rx| - g.early + if PeerDone(s) then 1 else 0
  }

  /** Everything acknowledged to the peer was read or waits in the receive ring. */
  predicate Accounted(l: Listener, rx: seq<byte>, g: Log) {
    g.early <= |g.delivered| + |rx| && l.acknowledgement == U32(g.irs + Heard(l.state, rx, g))
  }

  predicate AckIs(word: u32, g: Log, m: nat) {
    word == U32(g.irs + m)
  }

  /** An acknowledgement number that was true at some time. */
  ghost predicate WasTrue(word: u32, g: Log, heard: int) {
    exists m: nat :: AckIs(word, g, m) && m <= heard
  }

  ghost predicate AcksWereTrue(pending: seq<Pending>, g: Log, heard: int) {
    forall p :: p in pending ==> WasTrue(p.segment.acknowledgement, g, heard)
  }

  predicate IsHandshake(p: Pending, sequence: u32) {
    p.payload == [] && (p.segment.flags == SYN || p.segment.flags == SYN + ACK) &&
    p.expected == U32(sequence + 1)
  }

  predicate IsFinAt(p: Pending, at: int) {
    && p.payload == [] && p.segment.flags == FIN + ACK
    && p.segment.sequence == U32(at) && p.expected == U32(at + 1)
  }

  /** All bytes are acknowledged and only the FIN can still be in flight. */
  predicate Finished(l: Listener, pending: seq<Pending>, g: Log) {
    && g.acked == |g.written|
    && l.sequence == U32(g.iss + |g.written| + 1)
    && |pending| <= 1
    && (pending == [] || IsFinAt(pending[0], g.iss + |g.written|))
  }

  predicate IsOpening(s: State) {
    s == SynSent || s == SynReceived
  }

  /** What a handshake may put on the wire: nothing but SYNs with the initial sequence
      number and acknowledgements of the peer's SYN. */
  predicate HandshakeSegment(s: Segment, l: Listener) {
    && !HasFin(s.flags) && (HasSyn(s.flags) ==> s.sequence == l.sequence)
    && (HasAck(s.flags) ==> l.state == SynReceived && s.acknowledgement == l.acknowledgement)
  }

  ghost predicate HandshakeOk(wire: seq<Frame>, l: Listener, base: nat) {
    && base <= |wire|
    && forall k :: base <= k < |wire| ==> wire[k].payload == [] && HandshakeSegment(wire[k].segment, l)
  }

  predicate Opening(l: Listener, pending: seq<Pending>) {
    && |pending| <= 1
    && (pending == [] || (IsHandshake(pending[0], l.sequence) && HandshakeSegment(pending[0].segment, l)))
  }

  /** The listener, the rings and the pending segments fit the history. */
  ghost predicate Fits(l: Listener, rx: seq<byte>, tx: seq<byte>, closeRequested: bool,
                       pending: seq<Pending>, g: Log) {
    match l.state
    case Listen => pending == [] && tx == [] && rx == [] && !closeRequested
    case SynSent => Opening(l, pending) && tx == [] && rx == [] && !closeRequested
    case SynReceived => Opening(l, pending) && tx == [] && rx == [] && !closeRequested
    case _ =>
      && Accounted(l, rx, g) && AcksWereTrue(pending, g, Heard(l.state, rx, g))
      && if IsConnected(l.state) then Conserved(l, tx, pending, g)
         else Finished(l, pending, g) && tx == [] && !closeRequested
  }

  predicate CarriesAt(f: Frame, g: Log, o: nat) {
    && o + |f.payload| <= |g.written|
    && f.segment.sequence == U32(g.iss + o)
    && f.payload == g.written[o..o + |f.payload|]
  }

  /** How far a connection got: is it still open, how many bytes were put on the
      wire at least once, how much of the peer's sequence space was taken. */
  datatype Reach = Reach(open: bool, sent: nat, heard: int)

  function ReachOf(c: Connection, g: Log): Reach {
    Reach(Connected(c), g.acked + |Bytes(c.pending)|, Heard(c.l.state, c.rx, g))
  }

  /** What may be said of a frame of this connection: its payload is what was
      written at the position of its sequence number, a FIN closes a stream that
      is acknowledged to the last byte, and an acknowledgement number was true. */
  ghost predicate FrameOk(f: Frame, r: Reach, g: Log) {
    && (f.payload != [] ==> exists o: nat :: CarriesAt(f, g, o) && o + |f.payload| <= r.sent)
    && (HasFin(f.segment.flags) ==>
          !r.open && g.acked == |g.written| && f.payload == [] &&
          f.segment.sequence == U32(g.iss + |g.written|))
    && (HasAck(f.segment.flags) ==> WasTrue(f.segment.acknowledgement, g, r.heard))
  }

  ghost predicate FramesOk(wire: seq<Frame>, r: Reach, g: Log) {
    && g.base <= |wire|
    && forall k :: g.base <= k < |wire| ==> FrameOk(wire[k], r, g)
  }

  ghost predicate Inv(c: Connection, g: Log) {
    && Fits(c.l, c.rx, c.tx, c.closeRequested, c.pending, g)
    && (Live(c) ==> FramesOk(c.wire, ReachOf(c, g), g))
    && (IsOpening(c.l.state) ==> HandshakeOk(c.wire, c.l, g.base))
  }

  // ----- pending segments

  lemma NothingToRelease(c: Connection, s: Segment, now: u64)
    requires c.pending == []
    ensures AcknowledgeFor(c, s, now) == c
  {
  }

  lemma {:induction false} BytesAppend(p: seq<Pending>, q: Pending)
    ensures Bytes(p + [q]) == Bytes(p) + q.payload
  {
    if p == [] {
      assert p + [q] == [q];
      assert Bytes([q][1..]) == [];
    } else {
      assert (p + [q])[1..] == p[1..] + [q];
      BytesAppend(p[1..], q);
    }
  }

  lemma {:induction false} TiledAppend(p: seq<Pending>, q: Pending, at: int)
    requires Tiled(p, at) && IsDataAt(q, at + |Bytes(p)|)
    ensures Tiled(p + [q], at)
  {
    if p == [] {
      assert p + [q] == [q];
    } else {
      assert (p + [q])[1..] == p[1..] + [q];
      TiledAppend(p[1..], q, at + |p[0].payload|);
    }
  }

  lemma {:induction false} BytesSplit(p: seq<Pending>, k: nat)
    requires k <= |p|
    ensures Bytes(p) == Bytes(p[..k]) + Bytes(p[k..])
  {
    if k == 0 {
      assert p[..0] == [] && p[0..] == p;
    } else {
      BytesSplit(p[1..], k - 1);
      assert p[..k][1..] == p[1..][..k - 1];
      assert p[k..] == p[1..][k - 1..];
    }
  }

  lemma {:induction false} TiledDrop(p: seq<Pending>, k: nat, at: int)
    requires k <= |p| && Tiled(p, at)
    ensures Tiled(p[k..], at + |Bytes(p[..k])|)
  {
    if k == 0 {
      assert p[0..] == p;
    } else {
      TiledDrop(p[1..], k - 1, at + |p[0].payload|);
      assert p[k..] == p[1..][k - 1..];
      assert p[..k][1..] == p[1..][..k - 1];
    }
  }

  lemma {:induction false} InFlightBound(p: seq<Pending>, at: int)
    requires Tiled(p, at)
    ensures |Bytes(p)| <= PENDING_PAYLOAD * |p|
  {
    if p != [] { InFlightBound(p[1..], at + |p[0].payload|); }
  }

  /** How many leading pending segments end at or before `limit`. */
  function CoveredCount(p: seq<Pending>, at: int, limit: int): (k: nat)
    ensures k <= |p|
  {
    if p == [] || at + |p[0].payload| > limit then 0
    else 1 + CoveredCount(p[1..], at + |p[0].payload|, limit)
  }

  /** The position just after pending segment `i`. */
  function EndOf(p: seq<Pending>, at: int, i: nat): int
    requires i < |p|
  {
    at + |Bytes(p[..i + 1])|
  }

  lemma {:induction false} CoveredIsLongest(p: seq<Pending>, at: int, limit: int, i: nat)
    requires Tiled(p, at) && i < |p|
    ensures i < CoveredCount(p, at, limit) <==> EndOf(p, at, i) <= limit
  {
    assert p[..i + 1][1..] == p[1..][..i];
    assert Bytes(p[..i + 1]) == p[0].payload + Bytes(p[1..][..i]);
    if i > 0 {
      CoveredIsLongest(p[1..], at + |p[0].payload|, limit, i - 1);
    }
  }

  lemma {:induction false} AcknowledgeByCount(c: Connection, now: u64, word: u32, at: int, next: int)
    requires Tiled(c.pending, at) && next == at + |Bytes(c.pending)|
    requires !After(word, U32(next))
    ensures Acknowledge(c, now, word).pending ==
            c.pending[CoveredCount(c.pending, at, Unwrap(next, word))..]
    decreases |c.pending|
  {
    if c.pending != [] {
      hide U32, UpdateRoundTrip;
      var p := c.pending[0];
      var end := at + |p.payload|;
      InFlightBound(c.pending, at);
      AcceptedAcknowledgement(next, word, end);
      assert Releases(word, p.expected) <==> end <= Unwrap(next, word);
      if Releases(word, p.expected) {
        var rtt := if p.retransmissions == 0 && now >= p.sentAt
                   then UpdateRoundTrip(c.rtt, now - p.sentAt) else c.rtt;
        var c1 := c.(rtt := rtt, pending := c.pending[1..]);
        AcknowledgeByCount(c1, now, word, end, next);
      }
    }
  }

  /** Wrapping acknowledgements: whatever 32-bit word arrives, if ESTABLISHED or
      CLOSE-WAIT accepts it then exactly the leading segments that it covers in
      unbounded arithmetic are released. */
  lemma AcknowledgeReleasesCovered(c: Connection, now: u64, word: u32, at: int)
    requires Tiled(c.pending, at)
    requires !After(word, U32(at + |Bytes(c.pending)|))
    ensures
      var limit := Unwrap(at + |Bytes(c.pending)|, word);
      var k := CoveredCount(c.pending, at, limit);
      && Acknowledge(c, now, word).pending == c.pending[k..]
      && forall i :: 0 <= i < |c.pending| ==> (i < k <==> EndOf(c.pending, at, i) <= limit)
  {
    var limit := Unwrap(at + |Bytes(c.pending)|, word);
    forall i | 0 <= i < |c.pending|
      ensures i < CoveredCount(c.pending, at, limit) <==> EndOf(c.pending, at, i) <= limit
    {
      CoveredIsLongest(c.pending, at, limit, i);
    }
    AcknowledgeByCount(c, now, word, at, at + |Bytes(c.pending)|);
  }

  /** A stale acknowledgement, however far behind (2^31 included), releases nothing. */
  lemma StaleAcknowledgement(c: Connection, now: u64, word: u32, at: int)
    requires Tiled(c.pending, at)
    requires !After(word, U32(at + |Bytes(c.pending)|))
    requires Unwrap(at + |Bytes(c.pending)|, word) <= at
    ensures Acknowledge(c, now, word).pending == c.pending
  {
    AcknowledgeReleasesCovered(c, now, word, at);
  }

  /** The transmit loop, unfolded once. */
  lemma FlushTurn(c: Connection, now: u64, dev: Device)
    ensures var n := ChunkLength(c);
            if |c.pending| >= PENDING_CAPACITY || c.tx == [] || c.l.peerWindow == 0 || n == 0
            then FlushLoop(c, now, dev) == c
            else
              var s := DataSegment(c, n);
              var (c1, ok) := Send(c, s, c.tx[..n], dev);
              && c1.tx == c.tx && c1.l == c.l && c1.pending == c.pending
              && FlushLoop(c, now, dev) ==
                 if !ok then c1
                 else FlushLoop(Advance(c1.(pending := c1.pending + [PendingFor(c1, now, s, c.tx[..n])]), n),
                                now, dev)
  {
    hide Send, U32;
    ChunkSends(c, dev);
  }

  /** Sending leaves the queue, the listener and the flight alone. */
  lemma ChunkSends(c: Connection, dev: Device)
    ensures var n := ChunkLength(c);
            var c1 := Send(c, DataSegment(c, n), c.tx[..n], dev).0;
            c1.tx == c.tx && c1.l == c.l && c1.pending == c.pending
  {
    hide OnWire;
  }

  /** One segment less. */
  function Released(c: Connection, now: u64): Connection
    requires c.pending != []
  {
    var p := c.pending[0];
    c.(rtt := if p.retransmissions == 0 && now >= p.sentAt then UpdateRoundTrip(c.rtt, now - p.sentAt) else c.rtt,
       pending := c.pending[1..])
  }

  lemma AcknowledgeTurn(c: Connection, now: u64, word: u32)
    ensures Acknowledge(c, now, word) ==
            if c.pending == [] || !Releases(word, c.pending[0].expected) then c
            else Acknowledge(Released(c, now), now, word)
  {
    hide UpdateRoundTrip, Releases;
  }

  /** `Acknowledge` touches the pending ring and the round-trip estimate only. */
  lemma {:induction false} AcknowledgeFrame(c: Connection, now: u64, word: u32)
    ensures var d := Acknowledge(c, now, word);
            d == c.(rtt := d.rtt, pending := d.pending) &&
            |d.pending| <= |c.pending| && d.pending == c.pending[|c.pending| - |d.pending|..]
    decreases |c.pending|
  {
    hide Acknowledge, UpdateRoundTrip, Releases;
    AcknowledgeTurn(c, now, word);
    if c.pending != [] && Releases(word, c.pending[0].expected) {
      AcknowledgeFrame(Released(c, now), now, word);
      DropTwice(c.pending, 1, |c.pending| - 1 - |Acknowledge(Released(c, now), now, word).pending|);
    }
  }
}
