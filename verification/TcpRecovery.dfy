/** Everything written is read although segments and acknowledgements are lost. */
module TcpRecovery {
  import opened Words
  import opened Wrappers
  import opened TcpListener
  import opened TcpConnection
  import opened TcpProgress

  // A segment is transmitted at most four times.  It is enough that one transmission and
  // the acknowledgement of it get through; what the network does to the others, and
  // whether the receiver heard them, does not matter.

  datatype Fate = Lost | Unanswered | Answered

  /** One transmission: when it is sent, when its answer would be heard, and what becomes of it. */
  datatype Attempt = Attempt(sent: u64, heard: u64, fate: Fate)

  function Backoff(timeout: u64): u64 {
    if timeout < RTO_MAXIMUM / 2 then timeout * 2 else RTO_MAXIMUM
  }

  /** Some attempt is answered before its timeout, and before it each next transmission is
      made when the timeout has run out. */
  predicate Paced(attempts: seq<Attempt>, timeout: u64)
    decreases |attempts|
  {
    && attempts != []
    && var a := attempts[0];
       if a.fate == Answered then U64(a.heard - a.sent) < timeout
       else |attempts| > 1 && U64(attempts[1].sent - a.sent) >= timeout && Paced(attempts[1..], Backoff(timeout))
  }

  /** The transmissions of one segment, up to the first that is answered. */
  function Tries(a: Connection, b: Connection, attempts: seq<Attempt>, da: Device, db: Device): (Connection, Connection)
    decreases |attempts|
  {
    if attempts == [] || a.wire == [] then (a, b)
    else
      var t := attempts[0];
      var b1 := if t.fate == Lost then b else Poll(b, t.heard, t.heard, Some(Last(a)), db);
      if t.fate == Answered then
        if b1.wire == [] then (a, b1) else (Poll(a, t.heard, t.heard, Some(Last(b1)), da), b1)
      else if |attempts| == 1 then (a, b1)
      else Tries(Maintain(a, attempts[1].sent, da), b1, attempts[1..], da, db)
  }

  // ----- the sender

  /** `c` is `q` after its queue went out as one segment, which waits as `p`. */
  predicate Carrying(c: Connection, q: Connection, p: Pending) {
    && SendsAtOnce(q) && q.l.state == Established
    && c == q.(l := q.l.(sequence := U32(q.l.sequence + |q.tx|), peerWindow := q.l.peerWindow - |q.tx|),
               tx := [], pending := [p], wire := c.wire, offers := c.offers, lastWindow := c.lastWindow)
    && !q.closeRequested && !q.windowUpdate && !q.windowChanged && c.lastWindow != 0 && q.rtt.timeout > 0
    && Window(q) != 0 && p.timeout > 0
    && p.segment == DataSegment(q, |q.tx|) && p.payload == q.tx && p.expected == c.l.sequence
    && c.wire != [] && Last(c) == OnWire(q, p.segment, p.payload)
  }

  lemma SentCarries(q: Connection, now: u64)
    requires SendsAtOnce(q) && q.l.state == Established && !q.closeRequested && !q.windowUpdate && !q.windowChanged
    requires q.rtt.timeout > 0 && Window(q) != 0
    ensures var c := Sent(q, now);
            && Carrying(c, q, c.pending[0]) && c.pending[0].sentAt == now
            && c.pending[0].timeout == q.rtt.timeout && c.pending[0].retransmissions == 0
  {
    hide U32, OnWire;
  }

  /** When the timeout has run out the segment goes out again. */
  lemma ResendCarries(c: Connection, q: Connection, p: Pending, now: u64, dev: Device)
    requires Carrying(c, q, p) && Expired(p, now) && p.retransmissions < MAX_RETRANSMISSIONS && TakesAll(dev)
    ensures Carrying(Maintain(c, now, dev), q, Resent(p, now))
  {
    hide U32, Maintain, Expired, TakesAll;
    OverdueIsResent(c, now, dev);
    SameFrame(c, q, p);
  }

  lemma SameFrame(c: Connection, q: Connection, p: Pending)
    requires c.rx == q.rx
    ensures OnWire(c, p.segment, p.payload) == OnWire(q, p.segment, p.payload) && Window(c) == Window(q)
  {
  }

  lemma QuietWhileWaiting(c: Connection, q: Connection, p: Pending, now: u64, dev: Device)
    requires Carrying(c, q, p) && !Expired(p, now)
    ensures Maintain(c, now, dev) == c
  {
    hide Send, U32, Expired, OnWire;
    assert MaintainPendingFrom(c, 1, now, dev) == c;
    assert MaintainPendingFrom(c, 0, now, dev) == c;
  }

  /** The answer releases the segment, however often it was sent. */
  lemma AnswerReleases(c: Connection, q: Connection, p: Pending, f: Frame, now: u64, dev: Device)
    requires Carrying(c, q, p) && !Expired(p, now) && AcksAll(c, f)
    ensures var d := Poll(c, now, now, Some(f), dev);
            && Still(d) && d.rx == q.rx && d.l == c.l.(peerWindow := f.segment.window)
  {
    hide Receive, Maintain, U32, OnWire, Expired;
    QuietWhileWaiting(c, q, p, now, dev);
    ReceivesAck(c.l, f.segment);
    var e := c.(l := c.l.(peerWindow := f.segment.window));
    ReleasesOne(e, f.segment, now);
    hide AcknowledgeFor;
    assert Arrive(c, f, now, dev) == Respond(AcknowledgeFor(e, f.segment, now), EmptyReply(f.segment), now, dev);
  }

  // ----- the receiver

  /** `b` is `b0` after it took the payload of `f`, heard once or more. */
  predicate HasTaken(b: Connection, b0: Connection, f: Frame) {
    && Still(b) && b.rx == b0.rx + f.payload
    && b.l == b0.l.(peerWindow := f.segment.window, acknowledgement := U32(b0.l.acknowledgement + |f.payload|))
  }

  /** The answer to `f` is the last frame that went out. */
  predicate HasAnswered(b: Connection, b0: Connection, f: Frame) {
    && b.wire != [] && Last(b).payload == []
    && Last(b).segment == Segment(b0.l.local, b0.l.peer, b0.l.port, b0.l.peerPort, b0.l.sequence,
                                  U32(b0.l.acknowledgement + |f.payload|), ACK, Window(b), 0, 0)
  }

  /** The segment that is being transmitted fits the receiver `b0`. */
  predicate Suits(f: Frame, b0: Connection) {
    Still(b0) && InOrderData(b0, f) && |f.payload| < Window(b0)
  }

  lemma FirstHearing(b: Connection, f: Frame, now: u64, dev: Device)
    requires Suits(f, b) && TakesAll(dev)
    ensures var d := Poll(b, now, now, Some(f), dev);
            HasTaken(d, b, f) && HasAnswered(d, b, f)
  {
    hide Poll, U32;
    PollTakes(b, f, now, now, dev);
  }

  /** A segment that is heard again is acknowledged again and changes nothing. */
  lemma NextHearing(b: Connection, b0: Connection, f: Frame, now: u64, dev: Device)
    requires Suits(f, b0) && HasTaken(b, b0, f) && TakesAll(dev)
    ensures var d := Poll(b, now, now, Some(f), dev);
            HasTaken(d, b0, f) && HasAnswered(d, b0, f)
  {
    hide Receive, Maintain, Respond, U32, Arrive;
    StillMaintain(b, now, dev);
    var c := b.(windowChanged := false);
    Advances(b0.l.acknowledgement, |f.payload|);
    ReceivesOutOfOrder(c.l, f.segment);
    var l := c.l.(peerWindow := f.segment.window);
    var reply := ReplyWith(EmptyReply(f.segment), l, ACK);
    RepeatSettles(c, l, reply, f, now, dev);
    AcksAtOnce(c.(l := l), reply, now, dev);
  }

  lemma RepeatSettles(c: Connection, l: Listener, reply: Segment, f: Frame, now: u64, dev: Device)
    requires Still(c) && Matches(c.l, f.segment) && f.segment.sequence != c.l.acknowledgement
    requires l == c.l.(peerWindow := f.segment.window) && Receive(c.l, f.segment) == Received(true, l, reply)
    requires f.segment.flags == ACK + PSH
    ensures Arrive(c, f, now, dev) == Respond(c.(l := l), reply, now, dev)
  {
    hide Receive, Respond, Enqueue;
    var d := c.(l := l);
    assert AcknowledgeFor(d, f.segment, now) == d && Deliver(d, c.l, f, now) == d;
  }

  // ----- one segment

  lemma Hearing(b: Connection, b0: Connection, f: Frame, now: u64, dev: Device)
    requires Suits(f, b0) && (b == b0 || HasTaken(b, b0, f)) && TakesAll(dev)
    ensures var d := Poll(b, now, now, Some(f), dev);
            HasTaken(d, b0, f) && HasAnswered(d, b0, f)
  {
    hide Poll, HasTaken, HasAnswered, TakesAll;
    if b == b0 { FirstHearing(b, f, now, dev); } else { NextHearing(b, b0, f, now, dev); }
  }

  predicate Opposite(q: Connection, b0: Connection) {
    Facing(q, b0) && |q.tx| < Window(b0) && Still(b0)
  }

  lemma SegmentSuits(c: Connection, q: Connection, p: Pending, b0: Connection)
    requires Carrying(c, q, p) && Opposite(q, b0)
    ensures Suits(Last(c), b0) && Last(c).payload == q.tx && Last(c).segment.window == Window(q)
  {
    hide U32;
  }

  lemma AnswerFits(c: Connection, q: Connection, p: Pending, b: Connection, b0: Connection)
    requires Carrying(c, q, p) && Opposite(q, b0) && HasAnswered(b, b0, Last(c)) && Last(c).payload == q.tx
    ensures AcksAll(c, Last(b)) && Last(b).segment.window == Window(b)
  {
    hide U32, OnWire;
  }

  /** What an exchange leaves behind, whatever was lost on the way. */
  predicate Exchanged(c: Connection, d: Connection, q: Connection, b0: Connection) {
    && Still(c) && Still(d) && Facing(c, d) && c.rx == q.rx && d.rx == b0.rx + q.tx
    && c.l.peerMss == q.l.peerMss && c.l.peerWindow == Window(d)
    && d.l.peerMss == b0.l.peerMss && d.l.peerWindow == Window(q)
  }

  /** If one of at most four transmissions and its acknowledgement get through, the segment
      is in the receiver's ring, once, and the sender has nothing left to send. */
  lemma {:induction false} TriesDeliver(a: Connection, q: Connection, p: Pending, b: Connection, b0: Connection,
                                        attempts: seq<Attempt>, da: Device, db: Device)
    requires Carrying(a, q, p) && Opposite(q, b0) && (b == b0 || HasTaken(b, b0, Last(a)))
    requires Paced(attempts, p.timeout) && attempts[0].sent == p.sentAt
    requires p.retransmissions + |attempts| <= MAX_RETRANSMISSIONS + 1
    requires TakesAll(da) && TakesAll(db)
    ensures var (c, d) := Tries(a, b, attempts, da, db); Exchanged(c, d, q, b0)
    decreases |attempts|
  {
    hide Poll, Maintain, HasTaken, HasAnswered, TakesAll, Suits, U32, OnWire, Exchanged, Opposite;
    var t := attempts[0];
    var f := Last(a);
    SegmentSuits(a, q, p, b0);
    if t.fate != Lost { Hearing(b, b0, f, t.heard, db); }
    var b1 := if t.fate == Lost then b else Poll(b, t.heard, t.heard, Some(f), db);
    if t.fate == Answered {
      AnsweredTry(a, q, p, b1, b0, t.heard, da);
      assert b1.wire != [] by { Spoke(b1, b0, f); }
    } else {
      var a1 := Maintain(a, attempts[1].sent, da);
      ResendCarries(a, q, p, attempts[1].sent, da);
      TriesDeliver(a1, q, Resent(p, attempts[1].sent), b1, b0, attempts[1..], da, db);
    }
  }

  lemma Spoke(b: Connection, b0: Connection, f: Frame)
    requires HasAnswered(b, b0, f)
    ensures b.wire != []
  {
  }

  lemma AnsweredTry(a: Connection, q: Connection, p: Pending, b: Connection, b0: Connection, now: u64, dev: Device)
    requires Carrying(a, q, p) && !Expired(p, now) && Opposite(q, b0)
    requires Last(a).payload == q.tx && Last(a).segment.window == Window(q)
    requires HasTaken(b, b0, Last(a)) && HasAnswered(b, b0, Last(a))
    ensures Exchanged(Poll(a, now, now, Some(Last(b)), dev), b, q, b0)
  {
    hide Poll, U32, OnWire, Expired;
    AnswerFits(a, q, p, b, b0);
    AnswerReleases(a, q, p, Last(b), now, dev);
  }

  // ----- the whole message

  function LossyExchange(a: Connection, b: Connection, data: seq<byte>, attempts: seq<Attempt>,
                         da: Device, db: Device): (Connection, Connection)
    requires attempts != []
  {
    Tries(Maintain(Write(a, data), attempts[0].sent, da), b, attempts, da, db)
  }

  lemma LossyExchangeDelivers(a: Connection, b: Connection, data: seq<byte>, attempts: seq<Attempt>,
                              da: Device, db: Device)
    requires ReadyFor(a, b, |data|) && |data| < Window(b) && TakesAll(da) && TakesAll(db)
    requires Paced(attempts, a.rtt.timeout) && |attempts| <= MAX_RETRANSMISSIONS + 1
    ensures var (c, d) := LossyExchange(a, b, data, attempts, da, db);
            Exchanged(c, d, a.(tx := data, windowChanged := false), b)
  {
    hide Maintain, Write, Tries, U32, OnWire, TakesAll, Exchanged, Carrying;
    WriteThenPoll(a, data, attempts[0].sent, da);
    var q := a.(tx := data, windowChanged := false);
    SentCarries(q, attempts[0].sent);
    var c := Sent(q, attempts[0].sent);
    TriesDeliver(c, q, c.pending[0], b, b, attempts, da, db);
  }

  /** The message goes through in chunks, each with its own plan of attempts, and the reader
      empties its ring after each. */
  function LossyTransfer(a: Connection, b: Connection, data: seq<byte>, plans: seq<seq<Attempt>>,
                         da: Device, db: Device): (Connection, Connection, seq<byte>)
    decreases |data|
  {
    if data == [] || plans == [] || plans[0] == [] then (a, b, [])
    else
      var n := Min(|data|, CHUNK);
      var (c, d) := LossyExchange(a, b, data[..n], plans[0], da, db);
      var (x, y, more) := LossyTransfer(c, Read(d, RECEIVE_CAPACITY), data[n..], plans[1..], da, db);
      (x, y, d.rx + more)
  }

  /** The network is no worse than it may be: of each chunk one of at most four
      transmissions, made when the timeouts run out, is answered in time. */
  ghost predicate GetsThrough(a: Connection, b: Connection, data: seq<byte>, plans: seq<seq<Attempt>>,
                              da: Device, db: Device)
    decreases |data|
  {
    data == [] ||
    (&& plans != [] && Paced(plans[0], a.rtt.timeout) && |plans[0]| <= MAX_RETRANSMISSIONS + 1
     && var n := Min(|data|, CHUNK);
        var (c, d) := LossyExchange(a, b, data[..n], plans[0], da, db);
        GetsThrough(c, Read(d, RECEIVE_CAPACITY), data[n..], plans[1..], da, db))
  }

  /** Liveness under loss: a message of any length is read at the other end, byte for byte
      and once, if of each segment one of the four transmissions and its acknowledgement
      get through. */
  lemma {:induction false} LossyTransferDeliversAll(a: Connection, b: Connection, data: seq<byte>,
                                                    plans: seq<seq<Attempt>>, da: Device, db: Device)
    requires ReadyFor(a, b, CHUNK) && b.rx == [] && TakesAll(da) && TakesAll(db)
    requires GetsThrough(a, b, data, plans, da, db)
    ensures var (c, d, got) := LossyTransfer(a, b, data, plans, da, db);
            got == data && ReadyFor(c, d, CHUNK) && d.rx == []
    decreases |data|
  {
    hide LossyExchange, Still, TakesAll, Paced;
    if data != [] {
      var n := Min(|data|, CHUNK);
      var part := data[..n];
      assert plans[0] != [] by { PacedIsSome(plans[0], a.rtt.timeout); }
      assert ReadyFor(a, b, n);
      LossyExchangeDelivers(a, b, part, plans[0], da, db);
      var (c, d) := LossyExchange(a, b, part, plans[0], da, db);
      assert d.rx == part by { assert [] + part == part; }
      var e := Read(d, RECEIVE_CAPACITY);
      ReadIsStill(d);
      assert e.rx == [];
      LossyTransferDeliversAll(c, e, data[n..], plans[1..], da, db);
      assert data == part + data[n..];
    }
  }

  lemma PacedIsSome(attempts: seq<Attempt>, timeout: u64)
    requires Paced(attempts, timeout)
    ensures attempts != []
  {
  }
}
