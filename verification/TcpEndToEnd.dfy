/** Two endpoints and a network that loses, repeats and reorders frames.  The network may
    hand to an endpoint, at any time and any number of times, any frame that the other
    endpoint put on the wire for this connection, from the first frame of the handshake on,
    and it may hand over nothing at all.  What is proved here needs no assumption on
    delivery, only that a frame is less than 2^32 positions old when it arrives and that it
    belongs to this connection.  Frames of earlier connections are excluded: the kernel can
    take one for data of the present connection (`TcpStaleFrames.StaleFrameIsHeard`). */
module TcpEndToEnd {
  import opened Words
  import opened Wrappers
  import opened TcpListener
  import opened TcpConnection
  import opened TcpSending
  import opened TcpSafety
  import opened TcpArrival
  import opened TcpDelivery

  /** An endpoint and its history. */
  datatype Party = Party(c: Connection, g: Log)

  ghost predicate Sound(p: Party) {
    Inv(p.c, p.g) && Live(p.c)
  }

  /** The bytes that were put on the wire at least once. */
  function Stream(p: Party): seq<byte> {
    if |p.c.tx| <= |p.g.written| then p.g.written[..|p.g.written| - |p.c.tx|] else []
  }

  function Received(p: Party): seq<byte> {
    ReceivedBytes(p.c, p.g)
  }

  /** From `s` to `r`: what arrived is a prefix of what was sent; what the sender
      counts as acknowledged did arrive; and once the receiver saw the end of the
      stream it has all of it, and the sender will write no more. */
  predicate Linked(s: Party, r: Party) {
    && r.g.irs == s.g.iss
    && Prefix(r.c, r.g, Stream(s))
    && s.g.acked <= |Received(r)|
    && (PeerDone(r.c.l.state) ==> !Connected(s.c) && Received(r) == s.g.written)
  }

  ghost predicate Joined(a: Party, b: Party) {
    Sound(a) && Sound(b) && Linked(a, b) && Linked(b, a)
  }

  /** Sequence numbers have 32 bits, so the network must not deliver a frame whose
      content lies a whole turn of the sequence space in the past. */
  ghost predicate Recent(f: Frame, s: Party, r: Party) {
    && (f.payload != [] ==>
          exists o: nat :: CarriesAt(f, s.g, o) && o + |f.payload| <= |Stream(s)| &&
                           |Received(r)| - o < M32)
    && (HasAck(f.segment.flags) ==>
          exists m: nat :: AckIs(f.segment.acknowledgement, s.g, m) &&
                           m <= ReachOf(s.c, s.g).heard && |Stream(r)| - m < M32)
  }

  /** `f` may arrive at `r`: `s` put it on the wire for this connection, handshake
      included, and once both sides are open it is not too old. */
  ghost predicate MayArrive(f: Frame, s: Party, r: Party) {
    && Decoded(f) && s.c.l.state != Listen
    && (Live(s.c) && Live(r.c) ==> Recent(f, s, r))
    && exists k :: s.g.base <= k < |s.c.wire| && s.c.wire[k] == f
  }

  // ----- facts about one endpoint

  lemma SentIsStream(p: Party)
    requires Sound(p)
    ensures |p.c.tx| <= |p.g.written|
    ensures ReachOf(p.c, p.g).sent == |p.g.written| - |p.c.tx| == |Stream(p)|
    ensures !Connected(p.c) ==> Stream(p) == p.g.written
  {
    hide FramesOk, Tiled;
    if Connected(p.c) {
      assert |p.g.written[p.g.acked..]| == |Bytes(p.c.pending)| + |p.c.tx|;
    } else {
      assert |Bytes(p.c.pending)| == 0;
    }
  }

  lemma OnTheWire(f: Frame, s: Party, r: Party)
    requires Sound(s) && MayArrive(f, s, r)
    ensures FrameOk(f, ReachOf(s.c, s.g), s.g)
  {
    hide FrameOk, Fits, Recent;
    var k :| s.g.base <= k < |s.c.wire| && s.c.wire[k] == f;
  }

  /** A FIN on the wire finds a receiver that has everything. */
  lemma FinFindsAll(f: Frame, s: Party, r: Party)
    requires Joined(s, r) && MayArrive(f, s, r) && HasFin(f.segment.flags)
    ensures !Connected(s.c) && Received(r) == s.g.written == Stream(s) && f.payload == []
    ensures f.segment.sequence == U32(s.g.iss + |s.g.written|)
  {
    hide Inv, Recent, CarriesAt, WasTrue;
    OnTheWire(f, s, r);
    SentIsStream(s);
  }

  lemma ArrivalIsFromPeer(f: Frame, s: Party, r: Party)
    requires Joined(s, r) && MayArrive(f, s, r)
    ensures FromPeer(f, r.g.irs, Stream(s), |Received(r)|)
  {
    hide Inv, FrameOk, U32;
    SentIsStream(s);
    if HasFin(f.segment.flags) {
      FinFindsAll(f, s, r);
      assert SliceAt(f, r.g.irs, Stream(s), |s.g.written|);
    } else if f.payload != [] {
      hide MayArrive, Linked;
      ContentIsRecent(f, s, r);
    }
  }

  lemma ContentIsRecent(f: Frame, s: Party, r: Party)
    requires Joined(s, r) && MayArrive(f, s, r) && f.payload != [] && !HasFin(f.segment.flags)
    ensures FromPeer(f, r.g.irs, Stream(s), |Received(r)|)
  {
    hide Inv, FrameOk, U32, CarriesAt, SliceAt, AckIs, HasAck, HasFin;
    var o: nat :| CarriesAt(f, s.g, o) && o + |f.payload| <= |Stream(s)| && |Received(r)| - o < M32;
    CarriedSlice(f, s, o);
    OffsetAhead(s, r, o);
  }

  lemma CarriedSlice(f: Frame, s: Party, o: nat)
    requires CarriesAt(f, s.g, o) && o + |f.payload| <= |Stream(s)| && !HasFin(f.segment.flags)
    ensures SliceAt(f, s.g.iss, Stream(s), o)
  {
    hide U32;
  }

  /** A sender runs at most one flight ahead of what it counts as acknowledged. */
  lemma OffsetAhead(s: Party, r: Party, o: nat)
    requires Joined(s, r) && o <= |Stream(s)|
    ensures o - |Received(r)| < M32
  {
    hide FramesOk, U32, Accounted, AcksWereTrue, Prefix;
    SentIsStream(s);
    if Connected(s.c) { InFlightBound(s.c.pending, s.g.iss + s.g.acked); }
  }

  lemma {:induction false} CoveredWithin(p: seq<Pending>, at: int, limit: int)
    ensures var k := CoveredCount(p, at, limit);
            k > 0 ==> at + |Bytes(p[..k])| <= limit
  {
    if p != [] && at + |p[0].payload| <= limit {
      CoveredWithin(p[1..], at + |p[0].payload|, limit);
      var k := CoveredCount(p[1..], at + |p[0].payload|, limit);
      assert p[..k + 1][1..] == p[1..][..k];
      assert Bytes(p[..k + 1]) == p[0].payload + Bytes(p[1..][..k]);
      assert k == 0 ==> p[1..][..k] == [];
    }
  }

  /** What an acknowledgement releases did arrive at its sender. */
  lemma AcknowledgedArrived(f: Frame, s: Party, r: Party)
    requires Joined(s, r) && MayArrive(f, s, r) && TakesAck(r.c, f)
    ensures r.g.acked + NewlyAcked(r.c, r.g, f.segment.acknowledgement) <= |Received(s)|
  {
    hide Inv, FrameOk, U32, Unwrap, CoveredCount, Bytes, CarriesAt, Prefix;
    var word := f.segment.acknowledgement;
    var m: nat :| AckIs(word, s.g, m) && m <= ReachOf(s.c, s.g).heard && |Stream(r)| - m < M32;
    SentIsStream(r);
    var next := Next(r.c.pending, r.g);
    assert m <= |Received(s)| <= |Stream(r)| by { HeardIsReceived(s, r); }
    assert Unwrap(next, word) == r.g.iss + m by { U32Injective(Unwrap(next, word), r.g.iss + m); }
    CoveredWithin(r.c.pending, r.g.iss + r.g.acked, r.g.iss + m);
    NothingReleased(r.c.pending);
  }

  lemma NothingReleased(p: seq<Pending>)
    ensures |Bytes(p[..0])| == 0
  {
  }

  lemma HeardIsReceived(s: Party, r: Party)
    requires Joined(s, r) && Connected(r.c)
    ensures ReachOf(s.c, s.g).heard == |Received(s)| <= |Stream(r)|
  {
    hide Inv, Bytes;
  }

  // ----- one step of one endpoint

  /** From `p` to `q` the sending side only grew, and a closed one stayed closed. */
  predicate Grew(p: Party, q: Party) {
    && q.g.iss == p.g.iss && q.g.irs == p.g.irs
    && p.g.written <= q.g.written && |Stream(p)| <= |Stream(q)|
    && (Connected(q.c) ==> Connected(p.c))
    && (!Connected(p.c) ==> q.g.written == p.g.written)
  }

  lemma Outbound(p: Party, q: Party, o: Party)
    requires Sound(p) && Sound(q) && Linked(p, o) && Grew(p, q) && q.g.acked <= |Received(o)|
    ensures Linked(q, o)
  {
    hide Inv;
    SentIsStream(p);
    SentIsStream(q);
    assert Stream(p) <= Stream(q);
  }

  lemma MaintainJoined(p: Party, o: Party, now: u64, dev: Device)
    requires Joined(p, o)
    ensures var q := Party(Maintain(p.c, now, dev), p.g);
            q.c.generation > p.c.generation || (q.c.generation == p.c.generation && Joined(q, o))
  {
    hide Inv, Maintain;
    MaintainQuiet(p.c, now, dev);
    MaintainKeeps(p.c, p.g, now, dev);
    var q := Party(Maintain(p.c, now, dev), p.g);
    if q.c.generation == p.c.generation {
      SentIsStream(p);
      SentIsStream(q);
      Outbound(p, q, o);
    }
  }

  /** The pair agrees again if `q` is `p` after it took part of the stream of `o`. */
  lemma TookMore(p: Party, q: Party, o: Party)
    requires Joined(p, o) && Inv(q.c, q.g) && Connected(p.c) && Connected(q.c)
    requires q.g == p.g.(acked := q.g.acked) && q.g.acked <= |Received(o)|
    requires |Received(p)| <= |Received(q)| && |q.c.tx| <= |p.c.tx| && Prefix(q.c, q.g, Stream(o))
    requires PeerDone(q.c.l.state) ==>
               PeerDone(p.c.l.state) || (!Connected(o.c) && Stream(o) == o.g.written)
    ensures Joined(q, o)
  {
    hide Inv;
    SentIsStream(p);
    SentIsStream(q);
    SentIsStream(o);
    Outbound(p, q, o);
  }

  lemma AcceptJoined(p: Party, o: Party, f: Frame, now: u64, dev: Device)
    requires Joined(p, o) && MayArrive(f, o, p) && TakesAck(p.c, f)
    ensures var q := Party(Accept(p.c, f, now, dev),
                           p.g.(acked := p.g.acked + NewlyAcked(p.c, p.g, f.segment.acknowledgement)));
            q.c.generation == p.c.generation && Joined(q, o)
  {
    hide Inv, Accept, NewlyAcked, Recent, TakesAck, FromPeer, U32;
    var q := Party(Accept(p.c, f, now, dev),
                   p.g.(acked := p.g.acked + NewlyAcked(p.c, p.g, f.segment.acknowledgement)));
    ArrivalIsFromPeer(f, o, p);
    AcceptConnected(p.c, p.g, f, now, dev);
    AcceptReceives(p.c, p.g, f, now, dev);
    AcceptDelivers(p.c, p.g, f, Stream(o), now, dev);
    AcknowledgedArrived(f, o, p);
    if HasFin(f.segment.flags) { FinFindsAll(f, o, p); }
    TookMore(p, q, o);
  }

  lemma HeldJoined(p: Party, o: Party, f: Frame, d: Connection)
    requires Joined(p, o) && MayArrive(f, o, p)
    requires Held(p.c, d, HasFin(f.segment.flags)) && d.generation == p.c.generation
    requires Inv(d, p.g)
    ensures Joined(Party(d, p.g), o)
  {
    hide Inv, Recent;
    var q := Party(d, p.g);
    if HasFin(f.segment.flags) { FinFindsAll(f, o, p); }
    SentIsStream(p);
    SentIsStream(q);
    Outbound(p, q, o);
  }

  lemma ArriveJoined(p: Party, o: Party, f: Frame, now: u64, dev: Device)
    requires Joined(p, o) && MayArrive(f, o, p)
    ensures var q := Party(Arrive(p.c, f, now, dev), LogArrive(p.g, p.c, f, now, dev));
            q.c.generation > p.c.generation || (q.c.generation == p.c.generation && Joined(q, o))
  {
    hide Inv, Accept, NewlyAcked, Recent, Send, Linked;
    ArriveKeeps(p.c, p.g, f, now, dev);
    if TakesAck(p.c, f) {
      AcceptJoined(p, o, f, now, dev);
    } else {
      ArriveHolds(p.c, f, now, dev);
      var d := Arrive(p.c, f, now, dev);
      if d.generation == p.c.generation { HeldJoined(p, o, f, d); }
    }
  }

  lemma WriteJoined(p: Party, o: Party, data: seq<byte>)
    requires Joined(p, o) && CanWrite(p.c, data)
    ensures Joined(Party(Write(p.c, data), p.g.(written := p.g.written + data)), o)
  {
    hide Inv;
    var q := Party(Write(p.c, data), p.g.(written := p.g.written + data));
    WriteKeeps(p.c, p.g, data);
    SentIsStream(p);
    SentIsStream(q);
    Outbound(p, q, o);
  }

  lemma ReadJoined(p: Party, o: Party, capacity: nat)
    requires Joined(p, o)
    ensures Joined(Party(Read(p.c, capacity),
                         p.g.(delivered := p.g.delivered + p.c.rx[..ReadCount(p.c, capacity)])), o)
  {
    hide Inv;
    var n := ReadCount(p.c, capacity);
    var q := Party(Read(p.c, capacity), p.g.(delivered := p.g.delivered + p.c.rx[..n]));
    ReadKeeps(p.c, p.g, capacity);
    assert p.g.delivered + p.c.rx[..n] + p.c.rx[n..] == p.g.delivered + p.c.rx;
    SentIsStream(p);
    SentIsStream(q);
    Outbound(p, q, o);
  }

  // ----- runs of the pair

  function StepParty(p: Party, e: Event, dev: Device): Party {
    Party(Step(p.c, e, dev), LogStep(p.g, p.c, e, dev))
  }

  /** The step of `p` takes its frame, if any, from the wire of `o`. */
  ghost predicate FairStep(p: Party, o: Party, e: Event, dev: Device) {
    e.PollEvent? && e.arrival.Some? ==>
      MayArrive(e.arrival.value, o, Party(Maintain(p.c, e.now, dev), p.g))
  }

  lemma StepJoined(p: Party, o: Party, e: Event, dev: Device)
    requires Joined(p, o) && FairStep(p, o, e, dev)
    ensures var q := StepParty(p, e, dev);
            q.c.generation > p.c.generation || (q.c.generation == p.c.generation && Joined(q, o))
  {
    hide Joined, Maintain, Arrive, LogArrive, MayArrive;
    match e
    case ReadEvent(capacity) => ReadJoined(p, o, capacity);
    case WriteEvent(data) => if CanWrite(p.c, data) { WriteJoined(p, o, data); }
    case CloseEvent => CloseJoined(p, o);
    case PollEvent(now, late, arrival) =>
      MaintainJoined(p, o, now, dev);
      var p1 := Party(Maintain(p.c, now, dev), p.g);
      if arrival.Some? {
        ArriveGeneration(p1.c, arrival.value, late, dev);
        if p1.c.generation == p.c.generation {
          ArriveJoined(p1, o, arrival.value, late, dev);
        }
      }
  }

  lemma CloseJoined(p: Party, o: Party)
    requires Joined(p, o)
    ensures Joined(Party(Close(p.c), p.g), o)
  {
    hide FramesOk, Conserved, Accounted, Bytes;
  }

  datatype Side = Left | Right

  /** One of the two endpoints takes a step. */
  datatype Turn = Turn(side: Side, event: Event)

  function After(a: Party, b: Party, t: Turn, da: Device, db: Device): (Party, Party) {
    if t.side == Left then (StepParty(a, t.event, da), b) else (a, StepParty(b, t.event, db))
  }

  predicate Unbroken(a: Party, b: Party, a1: Party, b1: Party) {
    a1.c.generation == a.c.generation && b1.c.generation == b.c.generation
  }

  /** A run of the pair over the network, up to the first reset of either side. */
  ghost predicate PairRun(a: Party, b: Party, turns: seq<Turn>, da: Device, db: Device,
                          a1: Party, b1: Party)
    decreases |turns|
  {
    if turns == [] then a1 == a && b1 == b
    else
      var t := turns[0];
      && (if t.side == Left then FairStep(a, b, t.event, da) else FairStep(b, a, t.event, db))
      && var (a2, b2) := After(a, b, t, da, db);
         Unbroken(a, b, a2, b2) && PairRun(a2, b2, turns[1..], da, db, a1, b1)
  }

  /** End-to-end stream integrity.  Two endpoints that agree at the start of the
      connection still agree after any run over a network that loses, repeats and
      reorders their frames: each side received a prefix of what the other wrote,
      everything a side counts as acknowledged was received by the other, and a
      side that saw the end of the stream received all of it. */
  lemma {:induction false} EndToEnd(a: Party, b: Party, turns: seq<Turn>, da: Device, db: Device,
                                    a1: Party, b1: Party)
    requires Joined(a, b) && PairRun(a, b, turns, da, db, a1, b1)
    ensures Joined(a1, b1)
    ensures Received(b1) <= a1.g.written && Received(a1) <= b1.g.written
    ensures a1.g.acked <= |Received(b1)| && b1.g.acked <= |Received(a1)|
    ensures PeerDone(b1.c.l.state) ==> Received(b1) == a1.g.written
    ensures PeerDone(a1.c.l.state) ==> Received(a1) == b1.g.written
    decreases |turns|
  {
    hide Sound, FairStep, StepParty;
    if turns == [] {
      assert Stream(a) <= a.g.written && Stream(b) <= b.g.written;
    } else {
      var t := turns[0];
      var (a2, b2) := After(a, b, t, da, db);
      if t.side == Left {
        StepJoined(a, b, t.event, da);
      } else {
        StepJoined(b, a, t.event, db);
      }
      EndToEnd(a2, b2, turns[1..], da, db, a1, b1);
    }
  }

  /** An endpoint that is open but has taken nothing from its peer yet.  It may have
      written and sent, and even have sent its FIN. */
  ghost predicate Untouched(p: Party) {
    && Sound(p) && !PeerDone(p.c.l.state)
    && p.g.acked == 0 && p.g.delivered == [] && p.g.early == 0 && p.c.rx == []
  }

  /** The peer of an untouched endpoint completes its side of the handshake: the two
      agree from there on. */
  lemma Agree(a: Party, b: Connection, base: nat)
    requires Untouched(a) && b.l.state == Established && b.tx == [] && b.rx == []
    requires a.g.iss == b.l.acknowledgement && a.g.irs == b.l.sequence
    requires Inv(b, FreshLog(b, base))
    ensures Joined(a, Party(b, FreshLog(b, base)))
  {
    hide Inv;
    SentIsStream(a);
  }

  /** A connection that carries less than 4 GiB each way needs no assumption on
      the age of frames. */
  lemma ShortStreamsAreRecent(f: Frame, s: Party, r: Party)
    requires Joined(s, r) && |Stream(s)| < M32 && |Stream(r)| < M32
    requires exists k :: s.g.base <= k < |s.c.wire| && s.c.wire[k] == f
    ensures Recent(f, s, r)
  {
    hide Fits;
    SentIsStream(s);
    var k :| s.g.base <= k < |s.c.wire| && s.c.wire[k] == f;
    assert FrameOk(f, ReachOf(s.c, s.g), s.g);
  }
}
