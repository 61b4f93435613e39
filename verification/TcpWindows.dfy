/** A reader that makes room is heard of. */
module TcpWindows {
  import opened Words
  import opened Wrappers
  import opened TcpListener
  import opened TcpConnection
  import opened TcpSending
  import opened TcpSafety
  import opened TcpArrival
  import opened TcpDelivery
  import opened TcpProgress

  /** The peer was told that the window is shut, and it is not. */
  predicate Stuck(c: Connection) {
    c.lastWindow == 0 && Window(c) != 0
  }

  /** Then the endpoint knows that it has to say so. */
  predicate Announces(c: Connection) {
    Stuck(c) ==> c.windowChanged || c.windowUpdate
  }

  /** From `c` to `d` the connection ended, or nothing was forgotten and the window did not
      open. */
  predicate Remembers(c: Connection, d: Connection) {
    || d.generation > c.generation
    || (&& d.generation == c.generation && d.windowChanged == c.windowChanged && d.windowUpdate == c.windowUpdate
        && |c.rx| <= |d.rx| && (Stuck(d) ==> Stuck(c)))
  }

  // ----- everything but reading and the window update

  lemma SendRemembers(c: Connection, s: Segment, payload: seq<byte>, dev: Device)
    ensures var d := Send(c, s, payload, dev).0;
            && Remembers(c, d) && d.generation == c.generation && d.rx == c.rx
            && d == c.(wire := d.wire, offers := d.offers, lastWindow := d.lastWindow)
  {
    hide OnWire;
  }

  lemma {:induction false} MaintainPendingRemembers(c: Connection, i: nat, now: u64, dev: Device)
    ensures Remembers(c, MaintainPendingFrom(c, i, now, dev))
    decreases |c.pending| - i
  {
    if i >= |c.pending| {
    } else if !Expired(c.pending[i], now) {
      MaintainPendingRemembers(c, i + 1, now, dev);
    } else if c.pending[i].retransmissions < MAX_RETRANSMISSIONS {
      hide Send, Expired;
      var p := c.pending[i];
      SendRemembers(c, p.segment, p.payload, dev);
      var sent := Send(c, p.segment, p.payload, dev).0;
      MaintainPendingRemembers(sent.(pending := sent.pending[i := Resent(p, now)]), i + 1, now, dev);
    }
  }

  lemma {:induction false} FlushLoopRemembers(c: Connection, now: u64, dev: Device)
    ensures Remembers(c, FlushLoop(c, now, dev))
    decreases |c.tx|
  {
    hide FlushLoop, Send, Advance, PendingFor, U32;
    FlushTurn(c, now, dev);
    if |c.pending| >= PENDING_CAPACITY || c.tx == [] || c.l.peerWindow == 0 || ChunkLength(c) == 0 {
    } else {
      var n := ChunkLength(c);
      var s := DataSegment(c, n);
      SendRemembers(c, s, c.tx[..n], dev);
      var (c1, ok) := Send(c, s, c.tx[..n], dev);
      if ok {
        AdvanceChanges(c1, now, s, n);
        FlushLoopRemembers(Advance(c1.(pending := c1.pending + [PendingFor(c1, now, s, c.tx[..n])]), n), now, dev);
      }
    }
  }

  lemma FlushRemembers(c: Connection, now: u64, dev: Device)
    ensures Remembers(c, Flush(c, now, dev))
  {
    hide FlushLoop;
    FlushLoopRemembers(c, now, dev);
  }

  lemma MaintainCloseRemembers(c: Connection, now: u64)
    ensures Remembers(c, MaintainClose(c, now))
  {
    hide U32, U64;
  }

  lemma MaintainStreamCloseRemembers(c: Connection, now: u64, dev: Device)
    ensures Remembers(c, MaintainStreamClose(c, now, dev))
  {
    hide Send, U64, U32;
    var c1 := if c.closeStarted == 0 then c.(closeStarted := now) else c;
    if Connected(c1) {
      var (l, fin) := BeginClose(c1.l);
      SendRemembers(c1.(l := l, closeRequested := false), fin, [], dev);
    }
  }

  lemma RespondRemembers(c: Connection, reply: Segment, now: u64, dev: Device)
    ensures Remembers(c, Respond(c, reply, now, dev))
  {
    hide Send, Flush, PendingFor;
    SendRemembers(c, reply, [], dev);
    var c1 := Send(c, reply, [], dev).0;
    var c2 := if reply.flags == SYN + ACK && c1.pending == []
              then Remember(c1, now, reply, []).0 else c1;
    FlushRemembers(c2, now, dev);
  }

  lemma ArriveRemembers(c: Connection, f: Frame, now: u64, dev: Device)
    ensures Remembers(c, Arrive(c, f, now, dev))
  {
    hide Receive, Send, AcknowledgeFor, Respond, Deliver;
    ArriveGeneration(c, f, now, dev);
    var d := GiveWay(c, f.segment);
    if d == c && Matches(c.l, f.segment) {
      SendRemembers(c, CurrentAck(c), [], dev);
      var r := Receive(c.l, f.segment);
      var c1 := c.(l := r.listener);
      AcknowledgeForFrame(c1, f.segment, now);
      var c2 := AcknowledgeFor(c1, f.segment, now);
      DeliverRemembers(c2, c.l, f, now);
      RespondRemembers(Deliver(c2, c.l, f, now), r.reply, now, dev);
    }
  }

  lemma DeliverRemembers(c: Connection, before: Listener, f: Frame, now: u64)
    ensures var d := Deliver(c, before, f, now);
            Remembers(c, d) && d.generation == c.generation
  {
    hide HasFin, U32;
  }

  // ----- the update itself

  /** What the update puts on the wire: an acknowledgement with the free space as window. */
  function Announcement(c: Connection): Frame {
    Frame(CurrentAck(c).(window := Window(c), mss := 0, length := 0), [])
  }

  /** If there is something to announce, a connected endpoint announces it, or keeps the
      flag when the device does not take the frame. */
  lemma UpdateGoesOut(c: Connection, dev: Device)
    requires Connected(c) && (c.windowUpdate || (c.windowChanged && Stuck(c)))
    ensures var d := MaintainWindow(c, dev);
            && d == c.(windowChanged := false, windowUpdate := d.windowUpdate, offers := c.offers + 1,
                       wire := d.wire, lastWindow := d.lastWindow)
            && (if dev(c.offers)
                then d.wire == c.wire + [Announcement(c)] && d.lastWindow == Window(c) && !d.windowUpdate
                else d.wire == c.wire && d.lastWindow == c.lastWindow && d.windowUpdate)
  {
  }

  lemma MaintainWindowAnnounces(c: Connection, dev: Device)
    requires Announces(c)
    ensures Announces(MaintainWindow(c, dev)) && MaintainWindow(c, dev).generation == c.generation
  {
  }

  // ----- every run

  lemma RemembersAnnounces(c: Connection, d: Connection)
    requires Announces(c) && Remembers(c, d)
    ensures d.generation > c.generation || (d.generation == c.generation && Announces(d))
  {
  }

  lemma MaintainAnnounces(c: Connection, now: u64, dev: Device)
    requires Announces(c)
    ensures var d := Maintain(c, now, dev);
            d.generation > c.generation || (d.generation == c.generation && Announces(d))
  {
    hide MaintainPendingFrom, MaintainClose, MaintainWindow, Flush, MaintainStreamClose, Announces, Remembers;
    var c1 := MaintainPending(c, now, dev);
    MaintainPendingRemembers(c, 0, now, dev);
    RemembersAnnounces(c, c1);
    MaintainQuietTail(c1, now, dev);
    if c1.generation == c.generation {
      var c2 := MaintainClose(c1, now);
      MaintainCloseRemembers(c1, now);
      RemembersAnnounces(c1, c2);
      if c2.generation == c1.generation {
        MaintainWindowAnnounces(c2, dev);
        var c3 := MaintainWindow(c2, dev);
        FlushRemembers(c3, now, dev);
        RemembersAnnounces(c3, Flush(c3, now, dev));
        FlushQuiet(c3, now, dev);
        MaintainStreamCloseRemembers(Flush(c3, now, dev), now, dev);
        RemembersAnnounces(Flush(c3, now, dev), MaintainStreamClose(Flush(c3, now, dev), now, dev));
      }
    }
  }

  lemma StepAnnounces(c: Connection, e: Event, dev: Device)
    requires Announces(c)
    ensures var d := Step(c, e, dev);
            d.generation > c.generation || (d.generation == c.generation && Announces(d))
  {
    hide Maintain, Arrive;
    if e.PollEvent? {
      MaintainAnnounces(c, e.now, dev);
      var c1 := Maintain(c, e.now, dev);
      if e.arrival.Some? {
        ArriveRemembers(c1, e.arrival.value, e.late, dev);
        ArriveGeneration(c1, e.arrival.value, e.late, dev);
        if c1.generation == c.generation { RemembersAnnounces(c1, Arrive(c1, e.arrival.value, e.late, dev)); }
      }
    }
  }

  /** At every point of every run, whatever arrives: a connection whose peer believes that
      the window is shut although it is not knows that it has to announce it. */
  lemma {:induction false} NeverForgotten(c: Connection, g: Log, events: seq<Event>, dev: Device)
    requires Announces(c)
    ensures var d := Run(c, g, events, dev).0;
            d.generation > c.generation || (d.generation == c.generation && Announces(d))
    decreases |events|
  {
    if events != [] {
      hide Step, LogStep, Announces;
      var d, h := Step(c, events[0], dev), LogStep(g, c, events[0], dev);
      StepAnnounces(c, events[0], dev);
      if d.generation == c.generation {
        NeverForgotten(d, h, events[1..], dev);
      } else {
        RunGeneration(d, h, events[1..], dev);
      }
    }
  }

  // ----- nothing is held back

  /** Over a device that takes the frames the transmit loop stops only when nothing is queued,
      four segments are in flight, or the peer's window or segment size is used up. */
  lemma {:induction false} FlushIsGreedy(c: Connection, now: u64, dev: Device)
    requires TakesAll(dev)
    ensures var d := FlushLoop(c, now, dev);
            d.tx == [] || |d.pending| >= 4 || d.l.peerWindow == 0 || d.l.peerMss == 0
    decreases |c.tx|
  {
    hide FlushLoop, Advance, PendingFor, U32, OnWire;
    TcpSending.FlushTurn(c, now, dev);
    if |c.pending| >= PENDING_CAPACITY || c.tx == [] || c.l.peerWindow == 0 || ChunkLength(c) == 0 {
    } else {
      var n := ChunkLength(c);
      var s := DataSegment(c, n);
      assert Takes(dev, c.offers);
      SendChanges(c, s, c.tx[..n], dev);
      var (c1, ok) := Send(c, s, c.tx[..n], dev);
      AdvanceChanges(c1, now, s, n);
      FlushIsGreedy(Advance(c1.(pending := c1.pending + [PendingFor(c1, now, s, c.tx[..n])]), n), now, dev);
    }
  }

  // ----- the next poll says so

  /** Frame `k` of `d` went out since `c` and tells the peer of the free space. */
  predicate TellsWindow(c: Connection, d: Connection, k: nat) {
    && |c.wire| <= k < |d.wire| && HasAck(d.wire[k].segment.flags)
    && d.wire[k].segment.window == Window(c) && Window(c) != 0
  }

  lemma SendGrows(c: Connection, s: Segment, payload: seq<byte>, dev: Device)
    ensures c.wire <= Send(c, s, payload, dev).0.wire
  {
    hide OnWire;
  }

  lemma {:induction false} MaintainPendingGrows(c: Connection, i: nat, now: u64, dev: Device)
    ensures c.wire <= MaintainPendingFrom(c, i, now, dev).wire
    decreases |c.pending| - i
  {
    if i >= |c.pending| {
    } else if !Expired(c.pending[i], now) {
      MaintainPendingGrows(c, i + 1, now, dev);
    } else if c.pending[i].retransmissions < MAX_RETRANSMISSIONS {
      hide Send, Expired;
      var p := c.pending[i];
      SendGrows(c, p.segment, p.payload, dev);
      SendChanges(c, p.segment, p.payload, dev);
      var sent := Send(c, p.segment, p.payload, dev).0;
      MaintainPendingGrows(sent.(pending := sent.pending[i := Resent(p, now)]), i + 1, now, dev);
    }
  }

  lemma {:induction false} FlushLoopGrows(c: Connection, now: u64, dev: Device)
    ensures c.wire <= FlushLoop(c, now, dev).wire
    decreases |c.tx|
  {
    hide FlushLoop, Send, Advance, PendingFor, U32;
    FlushTurn(c, now, dev);
    if |c.pending| >= PENDING_CAPACITY || c.tx == [] || c.l.peerWindow == 0 || ChunkLength(c) == 0 {
    } else {
      var n := ChunkLength(c);
      var s := DataSegment(c, n);
      SendGrows(c, s, c.tx[..n], dev);
      SendChanges(c, s, c.tx[..n], dev);
      var (c1, ok) := Send(c, s, c.tx[..n], dev);
      if ok {
        AdvanceChanges(c1, now, s, n);
        FlushLoopGrows(Advance(c1.(pending := c1.pending + [PendingFor(c1, now, s, c.tx[..n])]), n), now, dev);
      }
    }
  }

  lemma RestGrows(c: Connection, now: u64, dev: Device)
    ensures c.wire <= MaintainStreamClose(Flush(c, now, dev), now, dev).wire
  {
    hide FlushLoop, Send, U32, U64;
    FlushLoopGrows(c, now, dev);
    var d := Flush(c, now, dev);
    var d1 := if d.closeStarted == 0 then d.(closeStarted := now) else d;
    if Connected(d1) {
      var (l, fin) := BeginClose(d1.l);
      SendGrows(d1.(l := l, closeRequested := false), fin, [], dev);
      SendChanges(d1.(l := l, closeRequested := false), fin, [], dev);
    }
  }

  /** Retransmission either finds nothing to do, or ends the connection, or sends a segment,
      which tells the window as well. */
  lemma {:induction false} ResendTells(c: Connection, g: Log, i: nat, now: u64, dev: Device)
    requires Inv(c, g) && Connected(c) && TakesAll(dev) && Window(c) != 0
    ensures var d := MaintainPendingFrom(c, i, now, dev);
            d.generation > c.generation || d == c || TellsWindow(c, d, |c.wire|)
    decreases |c.pending| - i
  {
    if i >= |c.pending| {
    } else if !Expired(c.pending[i], now) {
      ResendTells(c, g, i + 1, now, dev);
    } else if c.pending[i].retransmissions < MAX_RETRANSMISSIONS {
      hide Expired, Inv;
      var p := c.pending[i];
      DataIsSendable(c, g, i);
      assert Takes(dev, c.offers);
      var sent := Send(c, p.segment, p.payload, dev).0;
      assert sent.wire == c.wire + [OnWire(c, p.segment, p.payload)];
      MaintainPendingGrows(sent.(pending := sent.pending[i := Resent(p, now)]), i + 1, now, dev);
    }
  }

  lemma DataIsSendable(c: Connection, g: Log, i: nat)
    requires Inv(c, g) && Connected(c) && i < |c.pending|
    ensures IsSendable(c.pending[i].segment, c.pending[i].payload) && HasAck(c.pending[i].segment.flags)
  {
    hide U32, Inv, Accounted, Bytes, Tiled;
    ConnectedFits(c, g);
    PendingAt(c.pending, g.iss + g.acked, i);
  }

  /** A stuck peer is told at the next poll over a device that takes the frames. */
  lemma NextPollTells(c: Connection, g: Log, now: u64, dev: Device)
    requires Inv(c, g) && Connected(c) && Stuck(c) && Announces(c) && TakesAll(dev)
    ensures var d := Maintain(c, now, dev);
            d.generation > c.generation || exists k: nat :: TellsWindow(c, d, k)
  {
    hide Inv, MaintainPendingFrom, MaintainClose, MaintainWindow, Flush, MaintainStreamClose;
    var c1 := MaintainPending(c, now, dev);
    ResendTells(c, g, 0, now, dev);
    MaintainPendingChanges(c, 0, now, dev);
    MaintainQuietTail(c1, now, dev);
    if c1.generation == c.generation {
      ConnectedSkips(c1, now);
      var c3 := MaintainWindow(c1, dev);
      RestGrows(c3, now, dev);
      var d := Maintain(c, now, dev);
      if c1 == c {
        assert Takes(dev, c.offers);
        UpdateGoesOut(c, dev);
        assert TellsWindow(c, d, |c.wire|);
      } else {
        MaintainWindowGrows(c1, dev);
        assert TellsWindow(c, d, |c.wire|);
      }
    }
  }

  lemma MaintainWindowGrows(c: Connection, dev: Device)
    ensures c.wire <= MaintainWindow(c, dev).wire
  {
    hide OnWire;
  }

  lemma ConnectedSkips(c: Connection, now: u64)
    requires Connected(c)
    ensures MaintainClose(c, now) == c
  {
  }

  /** After the peer was told that the window is shut, a read of at least one byte and a poll
      put a frame on the wire whose window is the free space. */
  lemma ReadReopens(c: Connection, g: Log, capacity: nat, now: u64, dev: Device)
    requires Inv(c, g) && Connected(c) && c.lastWindow == 0 && ReadCount(c, capacity) > 0 && TakesAll(dev)
    ensures var r := Read(c, capacity);
            var d := Maintain(r, now, dev);
            && Window(r) == Window(c) + ReadCount(c, capacity)
            && (d.generation > c.generation || exists k: nat :: TellsWindow(r, d, k))
  {
    hide Inv, Maintain;
    var r := Read(c, capacity);
    ReadKeeps(c, g, capacity);
    NextPollTells(r, g.(delivered := g.delivered + c.rx[..ReadCount(c, capacity)]), now, dev);
  }
}
