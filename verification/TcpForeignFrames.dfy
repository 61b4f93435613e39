/** Frames of any origin: exactly which ones keep the two ends in agreement. */
module TcpForeignFrames {
  import opened Words
  import opened Wrappers
  import opened TcpListener
  import opened TcpConnection
  import opened TcpSending
  import opened TcpSafety
  import opened TcpArrival
  import opened TcpDelivery
  import opened TcpHandshake
  import opened TcpEndToEnd
  import opened TcpMeeting

  /** `p` after the frame, with its history. */
  function Arrived(p: Party, f: Frame, now: u64, dev: Device): Party {
    Party(Arrive(p.c, f, now, dev), LogArrive(p.g, p.c, f, now, dev))
  }

  predicate InOrder(c: Connection, f: Frame) {
    c.l.state == Established && f.segment.sequence == c.l.acknowledgement
  }

  /** A FIN that is taken after the endpoint's own FIN was sent. */
  predicate TakesFin(c: Connection, f: Frame) {
    && (c.l.state == FinWait1 || c.l.state == FinWait2)
    && Matches(c.l, f.segment) && !TooLong(c, f)
    && !HasRst(f.segment.flags) && HasFin(f.segment.flags) && f.segment.sequence == c.l.acknowledgement
  }

  // ----- when the connection is open

  /** What the frame would make `p` believe is true of its peer `o`: it releases only bytes
      that `o` received, it brings only bytes that `o` sent, and it ends the stream only
      where `o` ended it. */
  ghost predicate Harmless(f: Frame, p: Party, o: Party) {
    if TakesAck(p.c, f) then
      && p.g.acked + NewlyAcked(p.c, p.g, f.segment.acknowledgement) <= |ReceivedBytes(o.c, o.g)|
      && (InOrder(p.c, f) ==>
            && ReceivedBytes(p.c, p.g) + f.payload <= Stream(o)
            && (HasFin(f.segment.flags) ==>
                  !Connected(o.c) && ReceivedBytes(p.c, p.g) + f.payload == o.g.written))
    else TakesFin(p.c, f) ==> !Connected(o.c) && ReceivedBytes(p.c, p.g) == o.g.written
  }

  lemma ReceiveEnds(l: Listener, s: Segment)
    requires IsLeaving(l.state) && Matches(l, s)
    ensures var r := Receive(l, s);
            r.listener.state != Listen ==>
              (PeerDone(r.listener.state) <==>
                 PeerDone(l.state) ||
                 ((l.state == FinWait1 || l.state == FinWait2) && !HasRst(s.flags) && HasFin(s.flags) &&
                  s.sequence == l.acknowledgement))
  {
    hide U32, Before;
  }

  /** The state that the poll leaves is the one the connection machine chose. */
  lemma SettleState(c: Connection, r: TcpListener.Received, f: Frame, now: u64, dev: Device)
    requires r.listener.state != Listen
    ensures Settle(c, r, f, now, dev).l.state == r.listener.state
  {
    hide Respond, AcknowledgeFor;
    var c1 := c.(l := r.listener);
    AcknowledgeForFrame(c1, f.segment, now);
    RespondChanges(Deliver(AcknowledgeFor(c1, f.segment, now), c.l, f, now), r.reply, now, dev);
  }

  /** A frame that is not taken by ESTABLISHED or CLOSE-WAIT ends the peer's stream exactly
      when it is a FIN in order. */
  lemma ArriveEnds(c: Connection, f: Frame, now: u64, dev: Device)
    requires Live(c) && !TakesAck(c, f)
    ensures var d := Arrive(c, f, now, dev);
            d.generation == c.generation ==>
              (PeerDone(d.l.state) <==> PeerDone(c.l.state) || TakesFin(c, f))
  {
    hide Settle, Receive, Send;
    ArriveGeneration(c, f, now, dev);
    if !Matches(c.l, f.segment) {
    } else if TooLong(c, f) {
      SendChanges(c, CurrentAck(c), [], dev);
    } else if IsLeaving(c.l.state) {
      ReceiveLeaving(c.l, f.segment);
      ReceiveEnds(c.l, f.segment);
      var r := Receive(c.l, f.segment);
      if r.listener.state == Listen {
        ResetSettle(c, r, f, now, dev);
      } else {
        SettleState(c, r, f, now, dev);
      }
    } else if HasRst(f.segment.flags) {
      ResetOnRst(c, f, now, dev);
    } else {
      RefuseQuiet(c, f, now, dev);
    }
  }

  /** From `p` to `q` bytes may have been released and received; what the peer is told
      about its own stream did not change. */
  lemma TookIff(p: Party, q: Party, o: Party)
    requires Joined(p, o) && Sound(q) && Grew(p, q)
    requires q.g == p.g.(acked := q.g.acked) && |ReceivedBytes(p.c, p.g)| <= |ReceivedBytes(q.c, q.g)|
    ensures Joined(q, o) <==>
            && q.g.acked <= |ReceivedBytes(o.c, o.g)|
            && ReceivedBytes(q.c, q.g) <= Stream(o)
            && (PeerDone(q.c.l.state) ==> !Connected(o.c) && ReceivedBytes(q.c, q.g) == o.g.written)
  {
    hide Inv, Grew;
    SentIsStream(o);
    if q.g.acked <= |ReceivedBytes(o.c, o.g)| { Outbound(p, q, o); }
  }

  lemma AcceptIff(p: Party, o: Party, f: Frame, now: u64, dev: Device)
    requires Joined(p, o) && Decoded(f) && TakesAck(p.c, f)
    ensures Arrived(p, f, now, dev).c.generation == p.c.generation
    ensures Joined(Arrived(p, f, now, dev), o) <==> Harmless(f, p, o)
  {
    hide Sound, Grew, Arrived, NewlyAcked, TakesAck, Stream, HasFin;
    AcceptedParty(p, f, now, dev);
    assert ReceivedBytes(p.c, p.g) + [] == ReceivedBytes(p.c, p.g);
    TookIff(p, Arrived(p, f, now, dev), o);
  }

  /** What an acceptable frame makes of an endpoint and its history. */
  lemma AcceptedParty(p: Party, f: Frame, now: u64, dev: Device)
    requires Sound(p) && Decoded(f) && TakesAck(p.c, f)
    ensures var q := Arrived(p, f, now, dev);
            && q.c.generation == p.c.generation && Sound(q) && Grew(p, q)
            && q.g == p.g.(acked := p.g.acked + NewlyAcked(p.c, p.g, f.segment.acknowledgement))
            && ReceivedBytes(q.c, q.g) == ReceivedBytes(p.c, p.g) + (if InOrder(p.c, f) then f.payload else [])
            && (PeerDone(q.c.l.state) <==> PeerDone(p.c.l.state) || (InOrder(p.c, f) && HasFin(f.segment.flags)))
  {
    hide Inv, Accept, NewlyAcked, HasFin, HasRst, Matches, InWindowAck, Arrived, Stream;
    TakenArrives(p, f, now, dev);
    AcceptConnected(p.c, p.g, f, now, dev);
    AcceptReceives(p.c, p.g, f, now, dev);
    var q := Arrived(p, f, now, dev);
    SentIsStream(p);
    SentIsStream(q);
    assert p.g.delivered + (p.c.rx + f.payload) == p.g.delivered + p.c.rx + f.payload;
  }

  lemma TakenArrives(p: Party, f: Frame, now: u64, dev: Device)
    requires TakesAck(p.c, f)
    ensures Arrived(p, f, now, dev) ==
            Party(Accept(p.c, f, now, dev),
                  p.g.(acked := p.g.acked + NewlyAcked(p.c, p.g, f.segment.acknowledgement)))
  {
    hide Accept, NewlyAcked, HasRst, InWindowAck;
  }

  lemma HeldIff(p: Party, o: Party, f: Frame, now: u64, dev: Device)
    requires Joined(p, o) && Decoded(f) && !TakesAck(p.c, f)
    ensures Arrived(p, f, now, dev).c.generation == p.c.generation ==>
              (Joined(Arrived(p, f, now, dev), o) <==> Harmless(f, p, o))
  {
    hide Inv, Accept, NewlyAcked, HasFin, HasRst, InWindowAck, Send;
    var q := Arrived(p, f, now, dev);
    ArriveKeeps(p.c, p.g, f, now, dev);
    ArriveHolds(p.c, f, now, dev);
    ArriveEnds(p.c, f, now, dev);
    if q.c.generation == p.c.generation {
      assert q.g == p.g by { HeldLog(p, f, now, dev); }
      SentIsStream(p);
      SentIsStream(q);
      TookIff(p, q, o);
    }
  }

  lemma HeldLog(p: Party, f: Frame, now: u64, dev: Device)
    requires Live(p.c) && !TakesAck(p.c, f) && Arrive(p.c, f, now, dev).generation == p.c.generation
    ensures LogArrive(p.g, p.c, f, now, dev) == p.g
  {
    hide Accept, NewlyAcked, Send;
    ArriveGeneration(p.c, f, now, dev);
  }

  /** The exact condition.  Take two ends that agree, and let one of them hear any frame,
      of this connection or an earlier one, old or forged.  If the connection lasts, the
      ends still agree if and only if the frame is harmless. */
  lemma JoinedIff(p: Party, o: Party, f: Frame, now: u64, dev: Device)
    requires Joined(p, o) && Decoded(f)
    ensures var q := Arrived(p, f, now, dev);
            q.c.generation == p.c.generation ==> (Joined(q, o) <==> Harmless(f, p, o))
  {
    hide Joined, Harmless, Arrived, TakesAck;
    if TakesAck(p.c, f) { AcceptIff(p, o, f, now, dev); } else { HeldIff(p, o, f, now, dev); }
  }

  // ----- while it is being opened

  /** At the client: only the answer of this server opens the connection, and until the
      server is open nothing is released, received or ended. */
  ghost predicate HarmlessToClient(f: Frame, p: Party, o: Party) {
    if p.c.l.state == SynSent then
      Opens(p.c, f) ==>
        o.c.l.state == SynReceived && f.segment.sequence == o.c.l.sequence && FirstBytes(p.c, f) == []
    else if TakesAck(p.c, f) then
      && NewlyAcked(p.c, p.g, f.segment.acknowledgement) == 0
      && (InOrder(p.c, f) ==> f.payload == [] && !HasFin(f.segment.flags))
    else !TakesFin(p.c, f)
  }

  predicate Answers(c: Connection, f: Frame) {
    Matches(c.l, f.segment) && !TooLong(c, f) && !HasRst(f.segment.flags) && HasSyn(f.segment.flags)
  }

  /** At the server: only a SYN with the number of this client is answered, and no ACK
      completes the handshake before the client is open. */
  ghost predicate HarmlessToServer(f: Frame, p: Party, o: Party) {
    if p.c.l.state == Listen then Answers(p.c, f) ==> f.segment.sequence == o.c.l.sequence
    else o.c.l.state == SynSent ==> !Opens(p.c, f)
  }

  lemma SameWord(x: u32, y: u32)
    ensures U32(x + 1) == U32(y + 1) <==> x == y
  {
    if U32(x + 1) == U32(y + 1) { U32Injective(x + 1, y + 1); }
  }

  lemma DialingIff(p: Party, o: Party, f: Frame, now: u64, dev: Device)
    requires (Calling(p, o) || Answering(p, o)) && Decoded(f)
    ensures var q := Arrived(p, f, now, dev);
            q.c.generation == p.c.generation ==> (Meeting(q, o) <==> HarmlessToClient(f, p, o))
  {
    hide Inv, Arrive, LogArrive, U32, Receive, FirstBytes, Linked, HasSyn, HasAck;
    ArriveOpening(p.c, p.g, f, now, dev);
    var q := Arrived(p, f, now, dev);
    if q.c.generation == p.c.generation && Opens(p.c, f) {
      hide Calling, Answering, Meeting;
      ReceiveCompletes(p.c.l, f.segment);
      OpenedIff(p, q, o, f);
    }
  }

  /** The client opened: the pair agrees if the server that answered is the one it faces. */
  lemma OpenedIff(p: Party, q: Party, o: Party, f: Frame)
    requires (Calling(p, o) || Answering(p, o)) && Inv(q.c, q.g) && q.g == FreshLog(q.c, p.g.base)
    requires q.c.l.state == Established
    requires q.c.l.sequence == U32(p.c.l.sequence + 1) && q.c.l.acknowledgement == U32(f.segment.sequence + 1)
    ensures Meeting(q, o) <==>
            o.c.l.state == SynReceived && f.segment.sequence == o.c.l.sequence && q.c.rx == []
  {
    hide Inv, U32, Linked;
    SameWord(o.c.l.sequence, f.segment.sequence);
  }

  lemma UntouchedIff(p: Party, o: Party, f: Frame, now: u64, dev: Device)
    requires HalfOpen(p, o) && Decoded(f)
    ensures var q := Arrived(p, f, now, dev);
            q.c.generation == p.c.generation ==> (Meeting(q, o) <==> HarmlessToClient(f, p, o))
  {
    hide HalfOpen, Meeting, NewlyAcked, HasFin, Arrived, TakesFin, TakesAck;
    HalfOpenIs(p, o);
    var q := Arrived(p, f, now, dev);
    if TakesAck(p.c, f) {
      AcceptedParty(p, f, now, dev);
      HalfOpenIff(p, q, o);
    } else if q.c.generation == p.c.generation {
      HeldParty(p, f, now, dev);
      HalfOpenIff(p, q, o);
    }
  }

  lemma HalfOpenIs(p: Party, o: Party)
    requires HalfOpen(p, o)
    ensures Sound(p) && !PeerDone(p.c.l.state) && p.c.l.state != SynSent
    ensures p.g.acked == 0 && p.g.delivered == [] && p.c.rx == []
  {
    hide Inv;
  }

  /** The client is still untouched exactly when nothing was released, received or ended. */
  lemma HalfOpenIff(p: Party, q: Party, o: Party)
    requires HalfOpen(p, o) && Sound(q) && q.g == p.g.(acked := q.g.acked)
    ensures Meeting(q, o) <==> q.g.acked == 0 && q.c.rx == [] && !PeerDone(q.c.l.state)
  {
    hide Inv, U32, Linked;
  }

  lemma HeldParty(p: Party, f: Frame, now: u64, dev: Device)
    requires Sound(p) && Decoded(f) && !TakesAck(p.c, f)
    requires Arrived(p, f, now, dev).c.generation == p.c.generation
    ensures var q := Arrived(p, f, now, dev);
            && Sound(q) && q.g == p.g && q.c.rx == p.c.rx
            && (PeerDone(q.c.l.state) <==> PeerDone(p.c.l.state) || TakesFin(p.c, f))
  {
    hide Inv, Arrive, LogArrive, TakesFin, TakesAck, HasFin;
    ArriveKeeps(p.c, p.g, f, now, dev);
    ArriveHolds(p.c, f, now, dev);
    ArriveEnds(p.c, f, now, dev);
    HeldLog(p, f, now, dev);
  }

  lemma ListeningIff(p: Party, o: Party, f: Frame, now: u64, dev: Device)
    requires Calling(o, p) && Decoded(f)
    ensures var q := Arrived(p, f, now, dev);
            q.c.generation == p.c.generation ==> (Meeting(o, q) <==> HarmlessToServer(f, p, o))
  {
    hide Inv, Arrive, LogArrive, U32, Answers;
    ListenerAnswers(p, f, now, dev);
    SameWord(o.c.l.sequence, f.segment.sequence);
  }

  lemma ListenerAnswers(p: Party, f: Frame, now: u64, dev: Device)
    requires Inv(p.c, p.g) && p.c.l.state == Listen && Decoded(f)
    ensures var q := Arrived(p, f, now, dev);
            && Inv(q.c, q.g)
            && (q.c.generation == p.c.generation ==>
                  if Answers(p.c, f)
                  then q.c.l.state == SynReceived && q.c.l.acknowledgement == U32(f.segment.sequence + 1)
                  else q.c.l.state == Listen)
  {
    hide Inv, Accept, Receive, Send, U32;
    ArriveKeeps(p.c, p.g, f, now, dev);
    ShutHolds(p.c, p.g);
    if Matches(p.c.l, f.segment) {
      SendChanges(p.c, CurrentAck(p.c), [], dev);
      AcceptListen(p.c, p.g, f, now, dev);
      ListenReceives(p.c.l, f.segment);
    }
  }

  lemma ListenReceives(l: Listener, s: Segment)
    requires l.state == Listen && Matches(l, s)
    ensures var r := Receive(l, s);
            if !HasRst(s.flags) && HasSyn(s.flags)
            then r.listener.state == SynReceived && r.listener.acknowledgement == U32(s.sequence + 1)
            else r.listener.state == Listen
  {
    hide U32;
  }

  lemma AnsweringIff(p: Party, o: Party, f: Frame, now: u64, dev: Device)
    requires (Answering(o, p) || HalfOpen(o, p)) && Decoded(f)
    ensures var q := Arrived(p, f, now, dev);
            q.c.generation == p.c.generation ==> (Meeting(o, q) <==> HarmlessToServer(f, p, o))
  {
    hide Inv, Arrive, LogArrive, U32, Receive, Enqueue;
    ArriveOpening(p.c, p.g, f, now, dev);
    var d := Arrive(p.c, f, now, dev);
    if d.generation == p.c.generation && Opens(p.c, f) {
      ReceiveCompletes(p.c.l, f.segment);
      if HalfOpen(o, p) { Agree(o, d, p.g.base); }
    }
  }

  /** Is the frame harmless to the endpoint on this side, whatever phase the pair is in? */
  ghost predicate HarmlessAt(side: Side, f: Frame, a: Party, b: Party) {
    if Joined(a, b) then if side == Left then Harmless(f, a, b) else Harmless(f, b, a)
    else if side == Left then HarmlessToClient(f, a, b)
    else HarmlessToServer(f, b, a)
  }

  /** The pair after a frame arrived on one side. */
  function Hears(side: Side, f: Frame, a: Party, b: Party, now: u64, da: Device, db: Device): (Party, Party) {
    if side == Left then (Arrived(a, f, now, da), b) else (a, Arrived(b, f, now, db))
  }

  /** The exact condition in every phase, from the SYN on. */
  lemma MeetingIff(side: Side, f: Frame, a: Party, b: Party, now: u64, da: Device, db: Device)
    requires Meeting(a, b) && Decoded(f)
    ensures var (a1, b1) := Hears(side, f, a, b, now, da, db);
            Unbroken(a, b, a1, b1) ==> (Meeting(a1, b1) <==> HarmlessAt(side, f, a, b))
  {
    hide Joined, Calling, Answering, HalfOpen, Harmless, HarmlessToClient, HarmlessToServer, Arrived;
    if Joined(a, b) {
      OpenHears(side, f, a, b, now, da, db);
    } else if side == Left {
      if HalfOpen(a, b) { UntouchedIff(a, b, f, now, da); } else { DialingIff(a, b, f, now, da); }
    } else {
      if Calling(a, b) { ListeningIff(b, a, f, now, db); } else { AnsweringIff(b, a, f, now, db); }
    }
  }

  lemma OpenHears(side: Side, f: Frame, a: Party, b: Party, now: u64, da: Device, db: Device)
    requires Joined(a, b) && Decoded(f)
    ensures var (a1, b1) := Hears(side, f, a, b, now, da, db);
            Unbroken(a, b, a1, b1) ==> (Meeting(a1, b1) <==> HarmlessAt(side, f, a, b))
  {
    hide Joined, Harmless, Arrived, Beginning;
    JoinedBothWays(a, b);
    var (a1, b1) := Hears(side, f, a, b, now, da, db);
    if side == Left {
      JoinedIff(a, b, f, now, da);
      StaysOpen(a, a1, b, f, now, da);
      OneIsOpen(a1, b);
    } else {
      JoinedIff(b, a, f, now, db);
      JoinedBothWays(a, b1);
      StaysOpen(b, b1, a, f, now, db);
      OneIsOpen(a, b1);
    }
  }

  /** A live connection that lasts is live after any frame. */
  lemma StaysOpen(p: Party, q: Party, o: Party, f: Frame, now: u64, dev: Device)
    requires Joined(p, o) && Decoded(f) && q == Arrived(p, f, now, dev)
    ensures q.c.generation == p.c.generation ==> Live(q.c)
    ensures Live(o.c)
  {
    hide Inv, Accept, NewlyAcked, Send;
    if TakesAck(p.c, f) {
      TakenArrives(p, f, now, dev);
      AcceptReceives(p.c, p.g, f, now, dev);
    } else {
      ArriveHolds(p.c, f, now, dev);
    }
  }

  lemma OneIsOpen(a: Party, b: Party)
    ensures Live(a.c) && Live(b.c) ==> !Beginning(a, b)
  {
    hide Inv, Untouched;
  }

  // ----- runs with frames of any origin

  /** The side that takes the turn, after the maintenance of its poll. */
  function Maintained(a: Party, b: Party, t: Turn, da: Device, db: Device): (Party, Party)
    requires t.event.PollEvent?
  {
    TcpEndToEnd.After(a, b, t.(event := t.event.(arrival := None)), da, db)
  }

  ghost predicate HarmlessTurn(a: Party, b: Party, t: Turn, da: Device, db: Device) {
    t.event.PollEvent? && t.event.arrival.Some? ==>
      var (a1, b1) := Maintained(a, b, t, da, db);
      HarmlessAt(t.side, t.event.arrival.value, a1, b1)
  }

  ghost predicate AllHarmless(a: Party, b: Party, turns: seq<Turn>, da: Device, db: Device)
    decreases |turns|
  {
    turns == [] ||
    (HarmlessTurn(a, b, turns[0], da, db) &&
     var (a1, b1) := TcpEndToEnd.After(a, b, turns[0], da, db);
     AllHarmless(a1, b1, turns[1..], da, db))
  }

  /** Neither side was reset. */
  predicate Lasts(a: Party, b: Party, turns: seq<Turn>, da: Device, db: Device)
    decreases |turns|
  {
    turns == [] ||
    (var (a1, b1) := TcpEndToEnd.After(a, b, turns[0], da, db);
     Unbroken(a, b, a1, b1) && Lasts(a1, b1, turns[1..], da, db))
  }

  /** The two ends agree at every point of the run. */
  ghost predicate AgreesThroughout(a: Party, b: Party, turns: seq<Turn>, da: Device, db: Device)
    decreases |turns|
  {
    && Meeting(a, b)
    && (turns == [] ||
        var (a1, b1) := TcpEndToEnd.After(a, b, turns[0], da, db);
        AgreesThroughout(a1, b1, turns[1..], da, db))
  }

  /** A poll is its maintenance and then the arrival of its frame. */
  lemma PollIsTwoSteps(p: Party, now: u64, late: u64, f: Frame, dev: Device)
    ensures StepParty(p, PollEvent(now, late, Some(f)), dev) ==
            Arrived(StepParty(p, PollEvent(now, late, None), dev), f, late, dev)
  {
    hide Maintain, Arrive, LogArrive;
  }

  lemma TurnIff(a: Party, b: Party, t: Turn, da: Device, db: Device)
    requires Meeting(a, b) && DecodedEvent(t.event)
    requires var (a1, b1) := TcpEndToEnd.After(a, b, t, da, db); Unbroken(a, b, a1, b1)
    ensures var (a1, b1) := TcpEndToEnd.After(a, b, t, da, db);
            Meeting(a1, b1) <==> HarmlessTurn(a, b, t, da, db)
  {
    hide Meeting, HarmlessAt, StepParty, Arrived;
    if t.event.PollEvent? && t.event.arrival.Some? {
      var e := t.event;
      var f := e.arrival.value;
      var (a0, b0) := Maintained(a, b, t, da, db);
      var (a1, b1) := TcpEndToEnd.After(a, b, t, da, db);
      MeetingStep(a, b, t.(event := e.(arrival := None)), da, db);
      if t.side == Left {
        PollIsTwoSteps(a, e.now, e.late, f, da);
        PollGenerations(a, e.now, e.late, f, da);
      } else {
        PollIsTwoSteps(b, e.now, e.late, f, db);
        PollGenerations(b, e.now, e.late, f, db);
      }
      MeetingIff(t.side, f, a0, b0, e.late, da, db);
    } else {
      MeetingStep(a, b, t, da, db);
    }
  }

  lemma PollGenerations(p: Party, now: u64, late: u64, f: Frame, dev: Device)
    ensures var m := StepParty(p, PollEvent(now, late, None), dev).c.generation;
            p.c.generation <= m <= StepParty(p, PollEvent(now, late, Some(f)), dev).c.generation
  {
    hide Maintain, Arrive, LogArrive;
    MaintainQuiet(p.c, now, dev);
    ArriveGeneration(Maintain(p.c, now, dev), f, late, dev);
  }

  /** Any run of the pair in which neither side is reset, with any decoded frames arriving:
      the two ends agree at every point of it if and only if every frame was harmless when
      it arrived. */
  lemma {:induction false} RunIff(a: Party, b: Party, turns: seq<Turn>, da: Device, db: Device)
    requires Meeting(a, b) && Lasts(a, b, turns, da, db)
    requires forall t :: t in turns ==> DecodedEvent(t.event)
    ensures AgreesThroughout(a, b, turns, da, db) <==> AllHarmless(a, b, turns, da, db)
    decreases |turns|
  {
    hide Meeting, HarmlessTurn, TcpEndToEnd.After, DecodedEvent;
    if turns != [] {
      assert turns[0] in turns && forall t :: t in turns[1..] ==> t in turns;
      TurnIff(a, b, turns[0], da, db);
      var (a1, b1) := TcpEndToEnd.After(a, b, turns[0], da, db);
      if Meeting(a1, b1) { RunIff(a1, b1, turns[1..], da, db); }
    }
  }

  /** Every frame of the connection itself is harmless. */
  lemma OwnFramesAreHarmless(a: Party, b: Party, t: Turn, da: Device, db: Device)
    requires Meeting(a, b)
    requires if t.side == Left then FairStep(a, b, t.event, da) else FairStep(b, a, t.event, db)
    requires var (a1, b1) := TcpEndToEnd.After(a, b, t, da, db); Unbroken(a, b, a1, b1)
    ensures HarmlessTurn(a, b, t, da, db)
  {
    hide Meeting, HarmlessTurn, StepParty, Recent;
    MeetingStep(a, b, t, da, db);
    TurnIff(a, b, t, da, db);
  }
}
