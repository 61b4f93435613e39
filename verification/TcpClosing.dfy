/** Bounded close: a connection that was asked to close is gone three seconds
    later, whatever the peer does. */
module TcpClosing {
  import opened Words
  import opened Wrappers
  import opened TcpListener
  import opened TcpConnection
  import opened TcpSending
  import opened TcpSafety
  import opened TcpArrival
  import opened TcpDelivery

  /** The close timer runs since `start`, and TIME-WAIT, if it was reached, began
      no later than `limit`. */
  predicate ClosingSince(c: Connection, start: u64, limit: int) {
    && start > 0 && c.closeStarted == start
    && (|| (Connected(c) && c.closeRequested)
        || IsClosing(c.l.state)
        || (c.l.state == TimeWait && 0 < c.timeWaitStarted <= limit))
  }

  /** The connection ended, or its close goes on. */
  predicate EndsOrCloses(c: Connection, d: Connection, start: u64, limit: int) {
    d.generation > c.generation || (d.generation == c.generation && ClosingSince(d, start, limit))
  }

  // ----- maintenance

  lemma FlushClosing(c: Connection, start: u64, limit: int, now: u64, dev: Device)
    requires ClosingSince(c, start, limit)
    ensures EndsOrCloses(c, Flush(c, now, dev), start, limit)
    ensures Flush(c, now, dev).l.state == c.l.state && Flush(c, now, dev).generation == c.generation
  {
    hide FlushLoop;
    FlushLoopChanges(c, now, dev);
  }

  lemma MaintainStreamCloseClosing(c: Connection, start: u64, limit: int, now: u64, dev: Device)
    requires ClosingSince(c, start, limit)
    ensures EndsOrCloses(c, MaintainStreamClose(c, now, dev), start, limit)
    ensures Connected(c) && U64(now - start) >= CLOSE_TIMEOUT_MS ==>
              MaintainStreamClose(c, now, dev).generation > c.generation
  {
    hide Send, U64;
    if Connected(c) {
      var (l, fin) := BeginClose(c.l);
      SendChanges(c.(l := l, closeRequested := false), fin, [], dev);
    }
  }

  lemma MaintainCloseClosing(c: Connection, start: u64, limit: int, now: u64)
    requires ClosingSince(c, start, limit)
    ensures EndsOrCloses(c, MaintainClose(c, now), start, limit)
    ensures IsClosing(c.l.state) && U64(now - start) >= CLOSE_TIMEOUT_MS ==>
              MaintainClose(c, now).generation > c.generation
    ensures c.l.state == TimeWait && U64(now - c.timeWaitStarted) >= TIME_WAIT_MS ==>
              MaintainClose(c, now).generation > c.generation
    ensures MaintainClose(c, now).generation == c.generation ==> MaintainClose(c, now) == c
  {
    hide U64;
  }

  /** Maintenance ends a connection whose close timer ran out; only TIME-WAIT may
      go on, for its own half second. */
  lemma MaintainClosing(c: Connection, start: u64, limit: int, now: u64, dev: Device)
    requires ClosingSince(c, start, limit) && start <= now
    ensures var d := Maintain(c, now, dev);
            && EndsOrCloses(c, d, start, limit)
            && (d.generation == c.generation && now - start >= CLOSE_TIMEOUT_MS ==>
                  d.l.state == TimeWait && U64(now - c.timeWaitStarted) < TIME_WAIT_MS)
  {
    hide MaintainPendingFrom, MaintainClose, MaintainWindow, Flush, MaintainStreamClose, U64;
    U64Small(now - start);
    var c1 := MaintainPending(c, now, dev);
    MaintainPendingChanges(c, 0, now, dev);
    MaintainQuietTail(c1, now, dev);
    if c1.generation == c.generation {
      MaintainCloseClosing(c1, start, limit, now);
      var c2 := MaintainClose(c1, now);
      if c2.generation == c1.generation {
        var c3 := MaintainWindow(c2, dev);
        MaintainWindowQuiet(c2, dev);
        FlushClosing(c3, start, limit, now, dev);
        MaintainStreamCloseClosing(Flush(c3, now, dev), start, limit, now, dev);
        MaintainStreamCloseQuiet(Flush(c3, now, dev), now, dev);
      }
    }
  }

  // ----- arrivals

  lemma SettleClosing(c: Connection, r: Received, f: Frame, start: u64, limit: int, late: u64, dev: Device)
    requires ClosingSince(c, start, limit)
    requires c.l.state != TimeWait ==> 0 < late <= limit
    requires r.listener.state == Listen ==> r.ok
    requires r.listener.state != Listen ==>
               (Connected(c) && IsConnected(r.listener.state)) ||
               (IsLeaving(c.l.state) && IsLeaving(r.listener.state) &&
                (c.l.state == TimeWait ==> r.listener.state == TimeWait))
    requires !r.ok ==> r.listener.state == c.l.state
    ensures EndsOrCloses(c, Settle(c, r, f, late, dev), start, limit)
  {
    hide Respond, AcknowledgeFor;
    var c1 := c.(l := r.listener);
    AcknowledgeForFrame(c1, f.segment, late);
    RespondChanges(Deliver(AcknowledgeFor(c1, f.segment, late), c.l, f, late), r.reply, late, dev);
  }

  lemma ReceiveClosing(l: Listener, s: Segment)
    requires Matches(l, s) && (IsConnected(l.state) || IsLeaving(l.state))
    ensures var r := Receive(l, s);
            && (r.listener.state == Listen ==> r.ok) && (!r.ok ==> r.listener.state == l.state)
            && (r.listener.state != Listen && IsConnected(l.state) ==> IsConnected(r.listener.state))
            && (r.listener.state != Listen && IsLeaving(l.state) ==> IsLeaving(r.listener.state))
            && (r.listener.state != Listen && l.state == TimeWait ==> r.listener.state == TimeWait)
  {
  }

  lemma ArriveClosing(c: Connection, f: Frame, start: u64, limit: int, late: u64, dev: Device)
    requires ClosingSince(c, start, limit)
    requires c.l.state != TimeWait ==> 0 < late <= limit
    ensures EndsOrCloses(c, Arrive(c, f, late, dev), start, limit)
  {
    hide Settle, Receive, Send;
    ArriveGeneration(c, f, late, dev);
    if !Matches(c.l, f.segment) {
    } else if TooLong(c, f) {
      SendChanges(c, CurrentAck(c), [], dev);
    } else {
      ReceiveClosing(c.l, f.segment);
      SettleClosing(c, Receive(c.l, f.segment), f, start, limit, late, dev);
    }
  }

  // ----- steps and runs

  /** Polls happen after the close timer was started, and none takes longer than
      `drift` from its maintenance to its frame. */
  predicate Timed(e: Event, start: u64, drift: nat) {
    e.PollEvent? ==> start <= e.now <= e.late <= e.now + drift
  }

  function Limit(start: u64, drift: nat): int {
    start + CLOSE_TIMEOUT_MS + drift
  }

  lemma StepClosing(c: Connection, e: Event, start: u64, drift: nat, dev: Device)
    requires ClosingSince(c, start, Limit(start, drift)) && Timed(e, start, drift)
    ensures EndsOrCloses(c, Step(c, e, dev), start, Limit(start, drift))
  {
    hide Maintain, Arrive;
    if e.PollEvent? {
      var limit := Limit(start, drift);
      MaintainClosing(c, start, limit, e.now, dev);
      var c1 := Maintain(c, e.now, dev);
      if e.arrival.Some? {
        ArriveGeneration(c1, e.arrival.value, e.late, dev);
        if c1.generation == c.generation {
          ArriveClosing(c1, e.arrival.value, start, limit, e.late, dev);
        }
      }
    }
  }

  lemma {:induction false} RunClosing(c: Connection, g: Log, events: seq<Event>,
                                      start: u64, drift: nat, dev: Device)
    requires ClosingSince(c, start, Limit(start, drift))
    requires forall e :: e in events ==> Timed(e, start, drift)
    ensures EndsOrCloses(c, Run(c, g, events, dev).0, start, Limit(start, drift))
    decreases |events|
  {
    if events != [] {
      hide Step, LogStep, ClosingSince;
      assert events[0] in events;
      StepClosing(c, events[0], start, drift, dev);
      var d, h := Step(c, events[0], dev), LogStep(g, c, events[0], dev);
      assert forall e :: e in events[1..] ==> e in events;
      if d.generation == c.generation {
        RunClosing(d, h, events[1..], start, drift, dev);
      } else {
        RunGeneration(d, h, events[1..], dev);
      }
    }
  }

  /** Bounded close.  Let the close timer run since `start`.  After any run, with
      any arrivals, the maintenance of a poll 3000 ms after `start` (plus the time
      a single poll takes) leaves that connection gone, whether it was caught in
      ESTABLISHED, CLOSE-WAIT, FIN-WAIT, CLOSING, LAST-ACK or TIME-WAIT. */
  lemma BoundedClose(c: Connection, g: Log, events: seq<Event>, start: u64, drift: nat,
                     now: u64, dev: Device)
    requires ClosingSince(c, start, Limit(start, drift))
    requires forall e :: e in events ==> Timed(e, start, drift)
    requires now >= start + CLOSE_TIMEOUT_MS + TIME_WAIT_MS + drift
    ensures Maintain(Run(c, g, events, dev).0, now, dev).generation > c.generation
  {
    hide Maintain, Run;
    var limit := Limit(start, drift);
    RunClosing(c, g, events, start, drift, dev);
    var d := Run(c, g, events, dev).0;
    MaintainQuiet(d, now, dev);
    if d.generation == c.generation {
      MaintainClosing(d, start, limit, now, dev);
      if d.l.state == TimeWait { U64Small(now - d.timeWaitStarted); }
      MaintainEnds(d, start, limit, now, dev);
    }
  }

  lemma MaintainEnds(d: Connection, start: u64, limit: int, now: u64, dev: Device)
    requires ClosingSince(d, start, limit) && start <= now
    requires now - start >= CLOSE_TIMEOUT_MS && now - limit >= TIME_WAIT_MS
    ensures Maintain(d, now, dev).generation > d.generation
  {
    hide Maintain;
    MaintainClosing(d, start, limit, now, dev);
    MaintainQuiet(d, now, dev);
    if d.l.state == TimeWait {
      U64Small(now - d.timeWaitStarted);
    }
  }

  lemma MaintainStreamCloseObserves(c: Connection, now: u64, limit: int, dev: Device)
    requires Connected(c) && c.closeRequested && c.closeStarted <= now && now > 0
    ensures var d := MaintainStreamClose(c, now, dev);
            d.generation > c.generation ||
            (d.closeStarted <= now && ClosingSince(d, d.closeStarted, limit))
  {
    hide Send, U64;
    var c1 := if c.closeStarted == 0 then c.(closeStarted := now) else c;
    var (l, fin) := BeginClose(c1.l);
    SendChanges(c1.(l := l, closeRequested := false), fin, [], dev);
  }

  /** The first maintenance that sees the close request starts the timer. */
  lemma CloseIsObserved(c: Connection, now: u64, limit: int, dev: Device)
    requires Connected(c) && c.closeRequested && c.closeStarted <= now && now > 0
    ensures var d := Maintain(c, now, dev);
            d.generation > c.generation ||
            (d.closeStarted <= now && ClosingSince(d, d.closeStarted, limit))
  {
    hide MaintainPendingFrom, MaintainWindow, FlushLoop, MaintainStreamClose, ClosingSince;
    var c1 := MaintainPending(c, now, dev);
    MaintainPendingChanges(c, 0, now, dev);
    MaintainQuietTail(c1, now, dev);
    if c1.generation == c.generation {
      var c2 := MaintainClose(c1, now);
      assert c2 == c1;
      MaintainWindowQuiet(c2, dev);
      var c3 := MaintainWindow(c2, dev);
      FlushLoopChanges(c3, now, dev);
      MaintainStreamCloseObserves(Flush(c3, now, dev), now, limit, dev);
    }
  }

  // ----- not before its time

  /** No close timer ends a connection early: not within 2500 ms of its start, nor TIME-WAIT
      within 500 ms; a timer that was not running starts. */
  lemma NotBeforeItsTime(c: Connection, now: u64)
    requires c.closeStarted <= now && c.timeWaitStarted <= now
    ensures var d := MaintainClose(c, now);
            && (IsClosing(c.l.state) && (c.closeStarted == 0 || now - c.closeStarted < 2500) ==>
                  d == c.(closeStarted := if c.closeStarted == 0 then now else c.closeStarted))
            && (c.l.state == TimeWait && (c.timeWaitStarted == 0 || now - c.timeWaitStarted < 500) ==>
                  d == c.(timeWaitStarted := if c.timeWaitStarted == 0 then now else c.timeWaitStarted))
            && (!IsClosing(c.l.state) && c.l.state != TimeWait ==> d == c)
  {
    U64Small(0);
    U64Small(now - c.closeStarted);
    U64Small(now - c.timeWaitStarted);
  }

  /** Nor does a close request with data still to be sent or acknowledged. */
  lemma CloseWaitsForData(c: Connection, now: u64, dev: Device)
    requires c.closeStarted <= now && (c.closeStarted == 0 || now - c.closeStarted < 2500)
    requires c.tx != [] || c.pending != []
    ensures MaintainStreamClose(c, now, dev) ==
            if c.closeRequested && c.closeStarted == 0 then c.(closeStarted := now) else c
  {
    hide Send;
    U64Small(now - c.closeStarted);
  }

  // ----- strangers

  /** A frame of another tuple does nothing, unless it is a SYN and the connection is going
      away; then the connection ends. */
  lemma StrangerIff(c: Connection, f: Frame, now: u64, dev: Device)
    requires !Matches(c.l, f.segment)
    ensures var d := Arrive(c, f, now, dev);
            if HasSyn(f.segment.flags) && (IsLeaving(c.l.state) || c.closeRequested)
            then d.generation > c.generation
            else d == c
  {
    hide Accept, Send;
    ArriveGeneration(c, f, now, dev);
  }

  /** An open connection that nobody asked to close survives every frame of another tuple. */
  lemma OpenSurvivesStrangers(c: Connection, f: Frame, now: u64, dev: Device)
    requires Connected(c) && !c.closeRequested && !Matches(c.l, f.segment)
    ensures Arrive(c, f, now, dev) == c
  {
    hide Accept, Send;
    StrangerIff(c, f, now, dev);
  }

  /** A connection that is going away makes room at once: a new SYN for its port is answered
      for the new peer. */
  lemma MakesRoom(c: Connection, f: Frame, now: u64, dev: Device)
    requires (IsLeaving(c.l.state) || c.closeRequested) && !Matches(c.l, f.segment)
    requires f.segment.destinationPort == c.l.port && f.segment.flags == SYN && f.payload == []
    ensures var d := Arrive(c, f, now, dev);
            && d.l.state == SynReceived && d.l.peer == f.segment.source && d.l.peerPort == f.segment.sourcePort
            && d.l.acknowledgement == U32(f.segment.sequence + 1) && d.rx == [] && d.tx == []
  {
    hide Respond, U32, Enqueue;
    var r := ResetStream(c);
    var s := Receive(r.l, f.segment);
    var c1 := r.(l := s.listener);
    assert s.ok && s.listener.state == SynReceived;
    NothingToRelease(c1, f.segment, now);
    var e := Deliver(c1, r.l, f, now);
    assert Arrive(c, f, now, dev) == Respond(e, s.reply, now, dev);
    RespondOpening(e, s.reply, now, dev);
  }

  lemma RespondOpening(c: Connection, reply: Segment, now: u64, dev: Device)
    requires c.l.state == SynReceived
    ensures var d := Respond(c, reply, now, dev);
            d.l == c.l && d.rx == c.rx && d.tx == c.tx
  {
    hide Send, PendingFor;
    SendChanges(c, reply, [], dev);
  }
}
