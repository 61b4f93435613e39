/** The handshake over the same network, up to where the two ends agree. */
module TcpMeeting {
  import opened Words
  import opened Wrappers
  import opened TcpListener
  import opened TcpConnection
  import opened TcpSending
  import opened TcpSafety
  import opened TcpArrival
  import opened TcpDelivery
  import opened TcpPeerClosed
  import opened TcpHandshake
  import opened TcpEndToEnd

  /** The client sent its SYN, and the server has not heard it. */
  ghost predicate Calling(a: Party, b: Party) {
    Inv(a.c, a.g) && Inv(b.c, b.g) && a.c.l.state == SynSent && b.c.l.state == Listen
  }

  /** The server answered, and the client has not heard it. */
  ghost predicate Answering(a: Party, b: Party) {
    && Inv(a.c, a.g) && Inv(b.c, b.g) && a.c.l.state == SynSent && b.c.l.state == SynReceived
    && b.c.l.acknowledgement == U32(a.c.l.sequence + 1)
  }

  /** The client is open and may already send data; the server has heard nothing of it. */
  ghost predicate HalfOpen(a: Party, b: Party) {
    && Untouched(a) && Inv(b.c, b.g) && b.c.l.state == SynReceived
    && b.c.l.acknowledgement == a.g.iss && U32(b.c.l.sequence + 1) == a.g.irs
  }

  /** Before the server is open. */
  ghost predicate Beginning(a: Party, b: Party) {
    Calling(a, b) || Answering(a, b) || HalfOpen(a, b)
  }

  ghost predicate Meeting(a: Party, b: Party) {
    Beginning(a, b) || Joined(a, b)
  }

  // ----- an endpoint that is not open yet

  lemma ShutMaintain(c: Connection, g: Log, now: u64, dev: Device)
    requires Inv(c, g) && !Live(c)
    ensures var d := Maintain(c, now, dev);
            Inv(d, g) && (d.generation > c.generation || (d.generation == c.generation && d.l == c.l))
  {
    hide Inv, Maintain;
    MaintainKeeps(c, g, now, dev);
    ShutHolds(c, g);
    ShutMaintains(c, now, dev);
  }

  lemma ShutMaintains(c: Connection, now: u64, dev: Device)
    requires !Live(c) && !c.closeRequested
    ensures var d := Maintain(c, now, dev);
            d.generation > c.generation || (d.generation == c.generation && d.l == c.l)
  {
    hide MaintainPendingFrom, MaintainClose, MaintainWindow, Flush, MaintainStreamClose;
    var c1 := MaintainPending(c, now, dev);
    MaintainPendingChanges(c, 0, now, dev);
    var c2 := MaintainClose(c1, now);
    var c3 := MaintainWindow(c2, dev);
    MaintainWindowQuiet(c2, dev);
    var c4 := Flush(c3, now, dev);
    if c1.generation > c.generation {
      MaintainQuietTail(c1, now, dev);
    } else {
      ShutSkips(c1, now);
      ShutFlush(c3, now, dev);
    }
  }

  lemma ShutSkips(c: Connection, now: u64)
    requires !Live(c)
    ensures MaintainClose(c, now) == c
  {
  }

  lemma ShutFlush(c: Connection, now: u64, dev: Device)
    requires !Live(c) && !c.closeRequested
    ensures Flush(c, now, dev) == c && MaintainStreamClose(c, now, dev) == c
  {
  }

  lemma ShutHolds(c: Connection, g: Log)
    requires Inv(c, g) && !Live(c)
    ensures c.rx == [] && !c.closeRequested
  {
    hide Opening, HandshakeOk;
  }

  /** Reading, writing and closing do nothing before the connection is open. */
  lemma ShutIdles(p: Party, e: Event, dev: Device)
    requires Inv(p.c, p.g) && !Live(p.c) && !e.PollEvent?
    ensures StepParty(p, e, dev) == p
  {
    hide Inv;
    ShutHolds(p.c, p.g);
    assert p.c.rx[..0] == [] && p.c.rx[0..] == p.c.rx && p.g.delivered + [] == p.g.delivered;
  }

  /** The segment completes the handshake and is not refused for its length. */
  predicate Opens(c: Connection, f: Frame) {
    Completes(c, f) && !TooLong(c, f)
  }

  /** What the segment that completes the handshake leaves in the ring. */
  function FirstBytes(c: Connection, f: Frame): ReceiveRing {
    if f.payload != [] && Receive(c.l, f.segment).listener.acknowledgement != c.l.acknowledgement
    then Enqueue([], f.payload) else []
  }

  /** What any segment makes of a handshake: it ends it, completes it, or leaves it as it is. */
  lemma ArriveOpening(c: Connection, g: Log, f: Frame, now: u64, dev: Device)
    requires Inv(c, g) && IsOpening(c.l.state) && Decoded(f)
    ensures var d := Arrive(c, f, now, dev);
            var h := LogArrive(g, c, f, now, dev);
            && Inv(d, h) && d.generation >= c.generation
            && (d.generation == c.generation ==>
                  if Opens(c, f)
                  then h == FreshLog(d, g.base) && d.rx == FirstBytes(c, f) && d.tx == [] &&
                       d.l == Receive(c.l, f.segment).listener
                  else h == (if StrayAck(c, f) then g.(base := |d.wire|) else g) &&
                       d.l == c.l.(peerWindow := d.l.peerWindow))
  {
    hide Inv, Accept, Receive, Send, FirstBytes;
    ArriveKeeps(c, g, f, now, dev);
    ArriveGeneration(c, f, now, dev);
    OpeningStays(c, g, f.segment);
    if Matches(c.l, f.segment) {
      if TooLong(c, f) {
        SendChanges(c, CurrentAck(c), [], dev);
      } else {
        AcceptOpening(c, g, f, now, dev);
      }
    } else {
      StrangerCompletesNothing(c, f);
    }
  }

  lemma StrangerCompletesNothing(c: Connection, f: Frame)
    requires !Matches(c.l, f.segment)
    ensures !Completes(c, f)
  {
  }

  lemma AcceptOpening(c: Connection, g: Log, f: Frame, now: u64, dev: Device)
    requires Inv(c, g) && IsOpening(c.l.state) && Matches(c.l, f.segment)
    ensures var d := Accept(c, f, now, dev);
            d.generation > c.generation ||
            if Completes(c, f)
            then d.rx == FirstBytes(c, f) && d.tx == [] && d.l == Receive(c.l, f.segment).listener
            else d.l == c.l.(peerWindow := d.l.peerWindow)
  {
    hide Inv, Receive, Settle, Enqueue;
    ReceiveSyn(c.l, f.segment);
    var r := Receive(c.l, f.segment);
    if r.listener.state == Established && r.ok {
      EstablishKeeps(c, g, f, now, dev);
      ReceiveCompletes(c.l, f.segment);
    } else if r.listener.state == Listen && r.ok {
      ResetSettle(c, r, f, now, dev);
    } else if r.ok {
      SettleSynReceived(c, r, g, f, now, dev);
    } else {
      RefusedSettle(c, r, f, now, dev);
    }
  }

  // ----- what is on the wire

  lemma HandshakeFrame(f: Frame, s: Party, r: Party)
    requires Inv(s.c, s.g) && IsOpening(s.c.l.state) && MayArrive(f, s, r)
    ensures f.payload == [] && HandshakeSegment(f.segment, s.c.l)
  {
    hide Fits, FramesOk, HandshakeSegment, Recent;
    var k :| s.g.base <= k < |s.c.wire| && s.c.wire[k] == f;
  }

  // ----- the client

  /** A segment that acknowledges the SYN releases no data. */
  lemma SynAckReleasesNothing(c: Connection, g: Log, word: u32)
    requires Inv(c, g) && Connected(c) && g.acked == 0 && word == U32(g.iss)
    ensures NewlyAcked(c, g, word) == 0
  {
    hide FramesOk, U32, Accounted, AcksWereTrue;
    InFlightBound(c.pending, g.iss);
    var next := Next(c.pending, g);
    U32Injective(Unwrap(next, word), g.iss);
    assert c.pending[..0] == [];
  }

  lemma UntouchedArrives(p: Party, f: Frame, now: u64, dev: Device)
    requires Untouched(p) && Decoded(f) && f.payload == [] && !HasFin(f.segment.flags)
    requires HasAck(f.segment.flags) ==> f.segment.acknowledgement == U32(p.g.iss)
    ensures var q := Party(Arrive(p.c, f, now, dev), LogArrive(p.g, p.c, f, now, dev));
            q.c.generation > p.c.generation || (q.c.generation == p.c.generation && Untouched(q) && q.g == p.g)
  {
    hide Inv, Accept, NewlyAcked, Send, U32, HasAck, HasFin;
    ArriveKeeps(p.c, p.g, f, now, dev);
    if TakesAck(p.c, f) {
      SynAckReleasesNothing(p.c, p.g, f.segment.acknowledgement);
      AcceptReceives(p.c, p.g, f, now, dev);
    } else {
      ArriveHolds(p.c, f, now, dev);
      assert p.c.l.state != Listen;
    }
  }

  lemma UntouchedMaintain(p: Party, now: u64, dev: Device)
    requires Untouched(p)
    ensures var q := Party(Maintain(p.c, now, dev), p.g);
            q.c.generation > p.c.generation || (q.c.generation == p.c.generation && Untouched(q))
  {
    hide Inv, Maintain;
    MaintainKeeps(p.c, p.g, now, dev);
    MaintainQuiet(p.c, now, dev);
  }

  /** An open client may read, write and close before the server is open. */
  lemma UntouchedCalls(p: Party, e: Event, dev: Device)
    requires Untouched(p) && !e.PollEvent?
    ensures var q := StepParty(p, e, dev);
            && Untouched(q) && q.c.generation == p.c.generation && q.g.iss == p.g.iss && q.g.irs == p.g.irs
  {
    hide Inv, Write, Close, Read;
    StepKeeps(p.c, p.g, e, dev);
    CallsChange(p.c, e, dev);
    assert p.g.delivered + [] == p.g.delivered;
  }

  lemma CallsChange(c: Connection, e: Event, dev: Device)
    requires !e.PollEvent?
    ensures var d := Step(c, e, dev);
            d.l == c.l && d.generation == c.generation && (c.rx == [] ==> d.rx == [])
  {
  }

  lemma ClientHears(p: Party, o: Party, f: Frame, now: u64, dev: Device)
    requires Beginning(p, o) && MayArrive(f, o, p)
    ensures var q := Party(Arrive(p.c, f, now, dev), LogArrive(p.g, p.c, f, now, dev));
            q.c.generation > p.c.generation || (q.c.generation == p.c.generation && Beginning(q, o))
  {
    hide Inv, Arrive, LogArrive, U32, HasAck, HasSyn, HasFin, MayArrive, Receive;
    assert o.c.l.state == SynReceived by { Sender(f, o, p); }
    HandshakeFrame(f, o, p);
    assert Decoded(f) by { Sender(f, o, p); }
    if p.c.l.state == SynSent {
      ArriveOpening(p.c, p.g, f, now, dev);
      if Opens(p.c, f) {
        ReceiveCompletes(p.c.l, f.segment);
        SynAckIsSyn(p.c.l, f.segment);
      }
    } else {
      U32Near(p.g.iss);
      UntouchedArrives(p, f, now, dev);
    }
  }

  lemma Sender(f: Frame, s: Party, r: Party)
    requires MayArrive(f, s, r)
    ensures s.c.l.state != Listen && Decoded(f)
  {
  }

  lemma SynAckIsSyn(l: Listener, s: Segment)
    requires l.state == SynSent && Receive(l, s).ok && Receive(l, s).listener.state == Established
    ensures HasSyn(s.flags)
  {
    hide U32;
  }

  // ----- the server

  lemma ServerHears(p: Party, o: Party, f: Frame, now: u64, dev: Device)
    requires Beginning(o, p) && MayArrive(f, o, p)
    ensures var q := Party(Arrive(p.c, f, now, dev), LogArrive(p.g, p.c, f, now, dev));
            q.c.generation > p.c.generation || (q.c.generation == p.c.generation && Meeting(o, q))
  {
    hide Inv, Arrive, LogArrive, U32, HasAck, HasSyn, HasFin, MayArrive, Receive;
    assert Decoded(f) by { Sender(f, o, p); }
    if o.c.l.state == SynSent { HandshakeFrame(f, o, p); }
    if p.c.l.state == Listen {
      ListenerHears(p, f, o.c.l, now, dev);
    } else {
      ArriveOpening(p.c, p.g, f, now, dev);
      var d := Arrive(p.c, f, now, dev);
      if d.generation == p.c.generation && d.l.state == Established {
        ReceiveCompletes(p.c.l, f.segment);
        Agree(o, d, p.g.base);
      }
    }
  }

  lemma ListenerHears(p: Party, f: Frame, client: Listener, now: u64, dev: Device)
    requires Inv(p.c, p.g) && p.c.l.state == Listen && Decoded(f)
    requires f.payload == [] && client.state == SynSent && HandshakeSegment(f.segment, client)
    ensures var q := Party(Arrive(p.c, f, now, dev), LogArrive(p.g, p.c, f, now, dev));
            && Inv(q.c, q.g)
            && (|| q.c.generation > p.c.generation
                || (q.c.generation == p.c.generation &&
                    (q.c.l.state == Listen ||
                     (q.c.l.state == SynReceived && q.c.l.acknowledgement == U32(client.sequence + 1)))))
  {
    hide Inv, Accept, Receive, Send;
    ArriveKeeps(p.c, p.g, f, now, dev);
    ArriveGeneration(p.c, f, now, dev);
    ShutHolds(p.c, p.g);
    if Matches(p.c.l, f.segment) {
      AcceptListen(p.c, p.g, f, now, dev);
      if Receive(p.c.l, f.segment).listener.state == SynReceived { SynIsNumbered(p.c.l, f.segment); }
    }
  }

  lemma SynIsNumbered(l: Listener, s: Segment)
    requires l.state == Listen && Receive(l, s).listener.state == SynReceived
    ensures HasSyn(s.flags) && Receive(l, s).listener.acknowledgement == U32(s.sequence + 1)
  {
  }

  // ----- steps and runs

  lemma ClientSteps(p: Party, o: Party, e: Event, dev: Device)
    requires Beginning(p, o) && FairStep(p, o, e, dev)
    ensures var q := StepParty(p, e, dev);
            q.c.generation > p.c.generation || (q.c.generation == p.c.generation && Beginning(q, o))
  {
    hide Inv, Maintain, Arrive, LogArrive, MayArrive, U32;
    if !e.PollEvent? {
      if p.c.l.state == SynSent { ShutIdles(p, e, dev); } else { UntouchedCalls(p, e, dev); }
    } else {
      if p.c.l.state == SynSent {
        ShutMaintain(p.c, p.g, e.now, dev);
      } else {
        UntouchedMaintain(p, e.now, dev);
      }
      var p1 := Party(Maintain(p.c, e.now, dev), p.g);
      if e.arrival.Some? {
        ArriveGeneration(p1.c, e.arrival.value, e.late, dev);
        if p1.c.generation == p.c.generation { ClientHears(p1, o, e.arrival.value, e.late, dev); }
      }
    }
  }

  lemma ServerSteps(p: Party, o: Party, e: Event, dev: Device)
    requires Beginning(o, p) && FairStep(p, o, e, dev)
    ensures var q := StepParty(p, e, dev);
            q.c.generation > p.c.generation || (q.c.generation == p.c.generation && Meeting(o, q))
  {
    hide Inv, Maintain, Arrive, LogArrive, MayArrive, U32;
    if !e.PollEvent? {
      ShutIdles(p, e, dev);
    } else {
      ShutMaintain(p.c, p.g, e.now, dev);
      var p1 := Party(Maintain(p.c, e.now, dev), p.g);
      if e.arrival.Some? {
        ArriveGeneration(p1.c, e.arrival.value, e.late, dev);
        if p1.c.generation == p.c.generation { ServerHears(p1, o, e.arrival.value, e.late, dev); }
      }
    }
  }

  lemma MeetingStep(a: Party, b: Party, t: Turn, da: Device, db: Device)
    requires Meeting(a, b)
    requires if t.side == Left then FairStep(a, b, t.event, da) else FairStep(b, a, t.event, db)
    ensures var (a1, b1) := TcpEndToEnd.After(a, b, t, da, db);
            Unbroken(a, b, a1, b1) ==> Meeting(a1, b1)
  {
    hide Beginning, Joined, FairStep, StepParty;
    if Joined(a, b) {
      JoinedBothWays(a, b);
      if t.side == Left {
        StepJoined(a, b, t.event, da);
      } else {
        StepJoined(b, a, t.event, db);
        JoinedBothWays(a, StepParty(b, t.event, db));
      }
    } else {
      if t.side == Left { ClientSteps(a, b, t.event, da); } else { ServerSteps(b, a, t.event, db); }
    }
  }

  lemma JoinedBothWays(a: Party, b: Party)
    ensures Joined(a, b) <==> Joined(b, a)
  {
    hide Sound, Linked;
  }

  // ----- what the application is told

  lemma StepHonest(p: Party, o: Party, e: Event, dev: Device)
    requires Inv(p.c, p.g) && Honest(p.c) && FairStep(p, o, e, dev)
    requires !Live(p.c) && p.c.l.state != SynReceived ==> o.c.l.state == Listen || (IsOpening(o.c.l.state) && Inv(o.c, o.g))
    requires StepParty(p, e, dev).c.generation == p.c.generation
    ensures Honest(StepParty(p, e, dev).c)
  {
    hide Inv, Maintain, Arrive, MayArrive, LogArrive, HasFin;
    if !e.PollEvent? {
      CallHonest(p.c, e, dev);
    } else {
      var c := Maintain(p.c, e.now, dev);
      MaintainKeeps(p.c, p.g, e.now, dev);
      MaintainQuiet(p.c, e.now, dev);
      if e.arrival.Some? {
        var f := e.arrival.value;
        ArriveGeneration(c, f, e.late, dev);
        MaintainHonest(p.c, e.now, dev);
        Sender(f, o, Party(c, p.g));
        if Live(c) {
          ArriveHonest(c, p.g, f, e.late, dev);
        } else {
          if c.l.state != SynReceived { HandshakeFrame(f, o, Party(c, p.g)); }
          ShutArriveHonest(c, p.g, f, e.late, dev);
        }
      } else {
        MaintainHonest(p.c, e.now, dev);
      }
    }
  }

  lemma MeetingHonest(a: Party, b: Party, t: Turn, da: Device, db: Device)
    requires Meeting(a, b) && Honest(a.c) && Honest(b.c)
    requires if t.side == Left then FairStep(a, b, t.event, da) else FairStep(b, a, t.event, db)
    ensures var (a1, b1) := TcpEndToEnd.After(a, b, t, da, db);
            Unbroken(a, b, a1, b1) ==> Honest(a1.c) && Honest(b1.c)
  {
    hide Inv, FairStep, StepParty, Linked, U32, Honest;
    var (a1, b1) := TcpEndToEnd.After(a, b, t, da, db);
    if Unbroken(a, b, a1, b1) {
      if t.side == Left { StepHonest(a, b, t.event, da); } else { StepHonest(b, a, t.event, db); }
    }
  }

  /** Stream integrity from the first SYN on.  A client dials a listening server, and the
      network loses, repeats and reorders the frames of their connection from its SYN on as
      it likes.  At every point of every run, up to the first reset of either side: once
      both ends are open, each received a prefix of what the other wrote, whatever a side
      counts as acknowledged was received, and a side that saw the end received all.  The
      same is true of a side whose application was told of the end. */
  lemma {:induction false} FromSynToEnd(a: Party, b: Party, turns: seq<Turn>, da: Device, db: Device,
                                        a1: Party, b1: Party)
    requires Meeting(a, b) && PairRun(a, b, turns, da, db, a1, b1)
    ensures Meeting(a1, b1)
    ensures Live(a1.c) && Live(b1.c) ==>
              && ReceivedBytes(b1.c, b1.g) <= a1.g.written && ReceivedBytes(a1.c, a1.g) <= b1.g.written
              && a1.g.acked <= |ReceivedBytes(b1.c, b1.g)| && b1.g.acked <= |ReceivedBytes(a1.c, a1.g)|
              && (PeerDone(b1.c.l.state) ==> ReceivedBytes(b1.c, b1.g) == a1.g.written)
              && (PeerDone(a1.c.l.state) ==> ReceivedBytes(a1.c, a1.g) == b1.g.written)
    ensures Honest(a.c) && Honest(b.c) ==>
              && Honest(a1.c) && Honest(b1.c)
              && (Live(a1.c) && Live(b1.c) && b1.c.peerClosed ==> ReceivedBytes(b1.c, b1.g) == a1.g.written)
              && (Live(a1.c) && Live(b1.c) && a1.c.peerClosed ==> ReceivedBytes(a1.c, a1.g) == b1.g.written)
    decreases |turns|
  {
    hide Meeting, FairStep, StepParty;
    if turns == [] {
      if Live(a.c) && Live(b.c) { OpenIsJoined(a, b); }
    } else {
      var t := turns[0];
      var (a2, b2) := TcpEndToEnd.After(a, b, t, da, db);
      MeetingStep(a, b, t, da, db);
      if Honest(a.c) && Honest(b.c) { MeetingHonest(a, b, t, da, db); }
      FromSynToEnd(a2, b2, turns[1..], da, db, a1, b1);
    }
  }

  lemma OpenIsJoined(a: Party, b: Party)
    requires Meeting(a, b) && Live(a.c) && Live(b.c)
    ensures Joined(a, b) && Stream(a) <= a.g.written && Stream(b) <= b.g.written
  {
    hide Inv, Linked;
  }

  /** The start: an endpoint that dials, and one that listens. */
  lemma DialCalls(c: Connection, g: Log, b: Party, local: Address, localPort: u16, peer: Address,
                  peerPort: u16, now: u64, dev: Device)
    requires Inv(c, g) && c.l.state == Listen && Inv(b.c, b.g) && b.c.l.state == Listen
    ensures var d := Dial(c, local, localPort, peer, peerPort, now, dev);
            Meeting(Party(d, g.(base := |c.wire|)), b) && d.peerClosed == c.peerClosed
  {
    hide Inv, Dial;
    DialKeeps(c, g, local, localPort, peer, peerPort, now, dev);
    DialTellsNothing(c, local, localPort, peer, peerPort, now, dev);
  }

  lemma DialTellsNothing(c: Connection, local: Address, localPort: u16, peer: Address, peerPort: u16,
                         now: u64, dev: Device)
    ensures Dial(c, local, localPort, peer, peerPort, now, dev).peerClosed == c.peerClosed
  {
    hide Send, U32;
    var (l, syn) := Connect(local, localPort, peer, peerPort, U32(0x4152_4000 + c.connections));
    SendChanges(c.(l := l), syn, [], dev);
  }
}
