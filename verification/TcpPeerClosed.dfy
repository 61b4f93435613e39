/** The flag by which an application learns that its peer is done. */
module TcpPeerClosed {
  import opened Words
  import opened Wrappers
  import opened TcpListener
  import opened TcpConnection
  import opened TcpSending
  import opened TcpSafety
  import opened TcpArrival
  import opened TcpDelivery

  /** `peer_closed` is set only in the states after the peer's FIN. */
  predicate Honest(c: Connection) {
    c.peerClosed ==> PeerDone(c.l.state)
  }

  lemma SettleFlag(c: Connection, r: Received, f: Frame, now: u64, dev: Device)
    requires r.listener.state != Listen
    ensures var d := Settle(c, r, f, now, dev);
            && d.l.state == r.listener.state
            && d.peerClosed == (c.peerClosed || (r.ok && HasFin(f.segment.flags) &&
                                                 r.listener.acknowledgement != c.l.acknowledgement))
  {
    hide Respond, AcknowledgeFor, HasFin, Enqueue;
    var c1 := c.(l := r.listener);
    AcknowledgeForFrame(c1, f.segment, now);
    RespondChanges(Deliver(AcknowledgeFor(c1, f.segment, now), c.l, f, now), r.reply, now, dev);
  }

  /** In ESTABLISHED and CLOSE-WAIT the flag is set by a FIN in order and by nothing else. */
  lemma AcceptFlag(c: Connection, f: Frame, now: u64, dev: Device)
    requires TakesAck(c, f) && Decoded(f)
    ensures Accept(c, f, now, dev).peerClosed ==
            (c.peerClosed || (HasFin(f.segment.flags) && c.l.state == Established &&
                              f.segment.sequence == c.l.acknowledgement))
  {
    hide Receive, Settle, HasFin;
    ReceiveConnected(c.l, f.segment);
    SettleFlag(c, Receive(c.l, f.segment), f, now, dev);
  }

  lemma LeavingHonest(c: Connection, f: Frame, now: u64, dev: Device)
    requires IsLeaving(c.l.state) && Matches(c.l, f.segment) && Honest(c)
    requires Accept(c, f, now, dev).generation == c.generation
    ensures Honest(Accept(c, f, now, dev))
  {
    hide Receive, Settle, HasFin, U32;
    ReceiveLeaving(c.l, f.segment);
    var r := Receive(c.l, f.segment);
    U32Near(c.l.acknowledgement);
    if r.listener.state == Listen {
      ResetSettle(c, r, f, now, dev);
      assert false;
    } else {
      SettleFlag(c, r, f, now, dev);
    }
  }

  /** Any frame, of whatever origin, keeps the flag of an open connection honest. */
  lemma ArriveHonest(c: Connection, g: Log, f: Frame, now: u64, dev: Device)
    requires Inv(c, g) && Live(c) && Decoded(f) && Honest(c)
    requires Arrive(c, f, now, dev).generation == c.generation
    ensures Honest(Arrive(c, f, now, dev))
  {
    hide Inv, Accept, Send, HasFin, HasRst;
    ArriveGeneration(c, f, now, dev);
    if !Matches(c.l, f.segment) {
    } else if TooLong(c, f) {
      SendChanges(c, CurrentAck(c), [], dev);
    } else if IsLeaving(c.l.state) {
      LeavingHonest(c, f, now, dev);
    } else if TakesAck(c, f) {
      AcceptReceives(c, g, f, now, dev);
      AcceptFlag(c, f, now, dev);
    } else if HasRst(f.segment.flags) {
      ResetOnRst(c, f, now, dev);
    } else {
      RefuseQuiet(c, f, now, dev);
    }
  }

  lemma MaintainStreamCloseFlag(c: Connection, now: u64, dev: Device)
    ensures var d := MaintainStreamClose(c, now, dev);
            d.generation > c.generation || d.peerClosed == c.peerClosed
  {
    hide Send;
    var c1 := if c.closeStarted == 0 then c.(closeStarted := now) else c;
    if Connected(c1) {
      var (l, fin) := BeginClose(c1.l);
      SendChanges(c1.(l := l, closeRequested := false), fin, [], dev);
    }
  }

  lemma FlushFlag(c: Connection, now: u64, dev: Device)
    ensures Flush(c, now, dev).peerClosed == c.peerClosed
  {
    hide FlushLoop;
    FlushLoopChanges(c, now, dev);
  }

  lemma MaintainCloseFlag(c: Connection, now: u64)
    ensures var d := MaintainClose(c, now);
            d.generation > c.generation || d.peerClosed == c.peerClosed
  {
    hide U64, U32;
  }

  lemma MaintainFlag(c: Connection, now: u64, dev: Device)
    ensures var d := Maintain(c, now, dev);
            d.generation > c.generation || d.peerClosed == c.peerClosed
  {
    hide MaintainPendingFrom, MaintainClose, MaintainWindow, Flush, MaintainStreamClose;
    var c1 := MaintainPending(c, now, dev);
    MaintainPendingChanges(c, 0, now, dev);
    MaintainQuietTail(c1, now, dev);
    MaintainCloseQuiet(c1, now);
    MaintainCloseFlag(c1, now);
    var c2 := MaintainClose(c1, now);
    MaintainWindowQuiet(c2, dev);
    var c3 := MaintainWindow(c2, dev);
    FlushFlag(c3, now, dev);
    FlushQuiet(c3, now, dev);
    MaintainStreamCloseFlag(Flush(c3, now, dev), now, dev);
  }

  lemma MaintainHonest(c: Connection, now: u64, dev: Device)
    requires Honest(c) && Maintain(c, now, dev).generation == c.generation
    ensures Honest(Maintain(c, now, dev))
  {
    hide Maintain;
    MaintainFlag(c, now, dev);
    MaintainQuiet(c, now, dev);
  }

  lemma CallHonest(c: Connection, e: Event, dev: Device)
    requires Honest(c) && !e.PollEvent?
    ensures Honest(Step(c, e, dev))
  {
  }

  /** Before the connection is open no frame without FIN sets the flag, and SYN-RECEIVED
      takes none from a frame that leaves its acknowledgement number alone. */
  lemma ShutArriveHonest(c: Connection, g: Log, f: Frame, now: u64, dev: Device)
    requires Inv(c, g) && !Live(c) && Decoded(f) && Honest(c)
    requires !HasFin(f.segment.flags) || c.l.state == SynReceived
    requires Arrive(c, f, now, dev).generation == c.generation
    ensures Honest(Arrive(c, f, now, dev))
  {
    hide Inv, Settle, Receive, Send, HasFin;
    ArriveGeneration(c, f, now, dev);
    SendChanges(c, CurrentAck(c), [], dev);
    var r := Receive(c.l, f.segment);
    if GiveWay(c, f.segment) == c && Matches(c.l, f.segment) && !TooLong(c, f) {
      if r.listener.state == Listen {
        ShutListens(c, g, f, now, dev);
      } else {
        SettleFlag(c, r, f, now, dev);
        if c.l.state == SynReceived { SameAcknowledgement(c.l, f.segment); }
      }
    }
  }

  lemma ShutListens(c: Connection, g: Log, f: Frame, now: u64, dev: Device)
    requires Inv(c, g) && !Live(c) && Matches(c.l, f.segment) && Receive(c.l, f.segment).listener.state == Listen
    requires Accept(c, f, now, dev).generation == c.generation
    ensures Accept(c, f, now, dev).peerClosed == c.peerClosed
  {
    hide Inv, Settle, Receive;
    var r := Receive(c.l, f.segment);
    if c.l.state == Listen {
      ReceiveListening(c.l, f.segment);
      RefusedSettle(c, r, f, now, dev);
    } else {
      ReceiveSyn(c.l, f.segment);
      ResetSettle(c, r, f, now, dev);
      assert false;
    }
  }

  lemma SameAcknowledgement(l: Listener, s: Segment)
    requires l.state == SynReceived && Receive(l, s).listener.state != Listen
    ensures Receive(l, s).listener.acknowledgement == l.acknowledgement
  {
    hide U32;
  }
}
