/** Where receive integrity starts: the segment that completes the handshake. */
module TcpHandshake {
  import opened Words
  import opened TcpListener
  import opened TcpConnection
  import opened TcpSending
  import opened TcpSafety
  import opened TcpArrival
  import opened TcpDelivery

  /** `start_active_syn`: the endpoint sends its SYN and remembers it. */
  function Dial(c: Connection, local: Address, localPort: u16, peer: Address, peerPort: u16,
                now: u64, dev: Device): Connection
  {
    var (l, syn) := Connect(local, localPort, peer, peerPort, U32(0x4152_4000 + c.connections));
    var (c1, ok) := Send(c.(l := l), syn, [], dev);
    if ok then Remember(c1, now, syn, []).0 else c1
  }

  /** The SYN and everything after it on the wire belong to the new connection. */
  lemma DialKeeps(c: Connection, g: Log, local: Address, localPort: u16, peer: Address,
                  peerPort: u16, now: u64, dev: Device)
    requires Inv(c, g) && c.l.state == Listen
    ensures var d := Dial(c, local, localPort, peer, peerPort, now, dev);
            && Inv(d, g.(base := |c.wire|))
            && d.l == Connect(local, localPort, peer, peerPort, U32(0x4152_4000 + c.connections)).0
            && (dev(c.offers) ==> |d.wire| == |c.wire| + 1 && |d.pending| == 1)
  {
    hide U32, Send, Inv, Remember;
    var (l, syn) := Connect(local, localPort, peer, peerPort, U32(0x4152_4000 + c.connections));
    DialingKeeps(c, g, l);
    SynKeeps(c.(l := l), g.(base := |c.wire|), syn, now, dev);
  }

  lemma SynKeeps(c: Connection, g: Log, syn: Segment, now: u64, dev: Device)
    requires Inv(c, g) && c.l.state == SynSent && c.pending == []
    requires syn.flags == SYN && syn.sequence == c.l.sequence
    ensures var (c1, ok) := Send(c, syn, [], dev);
            var d := if ok then Remember(c1, now, syn, []).0 else c1;
            && Inv(d, g) && d.l == c.l
            && (dev(c.offers) ==> |d.wire| == |c.wire| + 1 && |d.pending| == 1)
  {
    hide Send, Inv, Remember, U32, OnWire;
    SendKeeps(c, g, syn, [], dev);
    SendChanges(c, syn, [], dev);
    SynIsTaken(c, syn, dev);
    SynPending(Send(c, syn, [], dev).0, g, now, syn);
  }

  lemma DialingKeeps(c: Connection, g: Log, l: Listener)
    requires Inv(c, g) && c.l.state == Listen && l.state == SynSent
    ensures Inv(c.(l := l), g.(base := |c.wire|)) && c.pending == []
  {
    hide FramesOk, HandshakeSegment, Conserved, Finished, Accounted;
  }

  lemma SynIsTaken(c: Connection, syn: Segment, dev: Device)
    requires syn.flags == SYN
    ensures dev(c.offers) ==> Send(c, syn, [], dev).1 && |Send(c, syn, [], dev).0.wire| == |c.wire| + 1
  {
    hide OnWire;
  }

  lemma SynPending(c: Connection, g: Log, now: u64, syn: Segment)
    requires Inv(c, g) && c.l.state == SynSent && c.pending == []
    requires syn.flags == SYN && syn.sequence == c.l.sequence
    ensures var d := Remember(c, now, syn, []).0;
            Inv(d, g) && d.l == c.l && d.wire == c.wire && |d.pending| == 1
  {
    hide FramesOk, HandshakeOk, Conserved, Finished, Accounted, U32;
    var q := PendingFor(c, now, syn, []);
    assert c.pending + [q] == [q];
    assert IsHandshake(q, c.l.sequence) && HandshakeSegment(q.segment, c.l);
  }

  predicate Completes(c: Connection, f: Frame) {
    && (c.l.state == SynSent || c.l.state == SynReceived)
    && Receive(c.l, f.segment).ok
    && Receive(c.l, f.segment).listener.state == Established
  }

  /** A connection starts with the empty prefix of the peer's stream exactly when
      the completing segment brings no payload, or was the ACK of a passive open,
      or leaves the acknowledgement number where it was. */
  lemma CleanStart(c: Connection, g: Log, f: Frame, stream: seq<byte>, now: u64, dev: Device)
    requires Inv(c, g) && Completes(c, f)
    ensures var d := Accept(c, f, now, dev);
            && Connected(d) && Inv(d, FreshLog(d, g.base))
            && (Prefix(d, FreshLog(d, g.base), stream) <==>
                  f.payload == [] || c.l.state == SynReceived ||
                  U32(f.segment.sequence + 1) == c.l.acknowledgement)
  {
    hide Inv, Accept, U32;
    EstablishKeeps(c, g, f, now, dev);
    assert Enqueue([], f.payload) == [] <==> f.payload == [];
  }

  /** A segment of one byte from the peer that `c` dials or talks to. */
  function OneByte(c: Connection, sequence: u32, acknowledgement: u32, flags: byte, x: byte): Frame {
    Frame(Segment(c.l.peer, c.l.local, c.l.peerPort, c.l.port, sequence, acknowledgement, flags, 512, 0, 1), [x])
  }

  /** The payload of a SYN-ACK is queued but not acknowledged, so a peer that repeats
      it, as it must, is heard twice.  Whatever idle endpoint dials, and whatever initial
      sequence number but 2^32 - 1 the peer has: its stream begins with one `x`, and the
      application can read two. */
  lemma SynAckPayloadIsHeardTwice(c: Connection, g: Log, local: Address, localPort: u16, peer: Address,
                                  peerPort: u16, start: u32, x: byte, now: u64, dev: Device)
    requires Inv(c, g) && c.l.state == Listen && dev(c.offers) && start != 0xffff_ffff
    ensures var d := Dial(c, local, localPort, peer, peerPort, now, dev);
            var word := U32(0x4152_4000 + c.connections + 1);
            var c1 := Arrive(d, OneByte(d, start, word, SYN + ACK, x), now, dev);
            var c2 := Arrive(c1, OneByte(d, start + 1, word, ACK, x), now, dev);
            && |d.pending| == 1 && Connected(c1) && c1.l.acknowledgement == start + 1
            && SliceAt(OneByte(d, start + 1, word, ACK, x), start + 1, [x], 0)
            && Connected(c2) && c2.rx == [x, x]
  {
    hide Inv, Dial, Arrive, U32;
    DialKeeps(c, g, local, localPort, peer, peerPort, now, dev);
    var d := Dial(c, local, localPort, peer, peerPort, now, dev);
    var word := U32(0x4152_4000 + c.connections + 1);
    U32Add(0x4152_4000 + c.connections, 1);
    FirstHearing(d, g.(base := |c.wire|), start, word, x, now, dev);
    var c1 := Arrive(d, OneByte(d, start, word, SYN + ACK, x), now, dev);
    SecondHearing(c1, FreshLog(c1, |c.wire|), OneByte(d, start + 1, word, ACK, x), now, dev);
    assert [x] + [x] == [x, x];
    U32Near(start + 1);
  }

  lemma FirstHearing(d: Connection, g: Log, start: u32, word: u32, x: byte, now: u64, dev: Device)
    requires Inv(d, g) && d.l.state == SynSent && d.l.acknowledgement == 0 && start != 0xffff_ffff
    requires word == U32(d.l.sequence + 1)
    ensures var c := Arrive(d, OneByte(d, start, word, SYN + ACK, x), now, dev);
            && Inv(c, FreshLog(c, g.base)) && c.rx == [x]
            && c.l == d.l.(sequence := word, acknowledgement := start + 1, state := Established,
                           peerWindow := c.l.peerWindow, peerMss := c.l.peerMss)
  {
    hide Inv, Accept, U32;
    var f := OneByte(d, start, word, SYN + ACK, x);
    OpeningFits(d, g);
    OpeningStays(d, g, f.segment);
    U32Near(start + 1);
    EstablishKeeps(d, g, f, now, dev);
    assert [x][..1] == [x];
  }

  lemma SecondHearing(c: Connection, g: Log, f: Frame, now: u64, dev: Device)
    requires Inv(c, g) && c.l.state == Established && |c.rx| == 1 && |f.payload| == 1 && Decoded(f)
    requires Matches(c.l, f.segment) && f.segment.flags == ACK
    requires f.segment.sequence == c.l.acknowledgement && f.segment.acknowledgement == c.l.sequence
    ensures var d := Arrive(c, f, now, dev);
            Connected(d) && d.rx == c.rx + f.payload
  {
    hide Inv, Accept, U32;
    AcceptReceives(c, g, f, now, dev);
  }
}
