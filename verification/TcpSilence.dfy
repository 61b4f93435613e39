/** A connection whose peer does not answer ends. */
module TcpSilence {
  import opened Words
  import opened Wrappers
  import opened TcpListener
  import opened TcpConnection
  import opened TcpSending
  import opened TcpSafety
  import opened TcpArrival
  import opened TcpDelivery
  import opened TcpTimers

  /** The connection ended, or its oldest pending segment is untouched. */
  predicate KeepsHead(c: Connection, d: Connection) {
    || d.generation > c.generation
    || (d.generation == c.generation &&
        (c.pending != [] ==> d.pending != [] && d.pending[0] == c.pending[0]))
  }

  // ----- maintenance

  lemma {:induction false} MaintainPendingHead(c: Connection, i: nat, now: u64, dev: Device)
    requires i > 0 && c.pending != []
    ensures KeepsHead(c, MaintainPendingFrom(c, i, now, dev))
    decreases |c.pending| - i
  {
    if i >= |c.pending| {
    } else if !Expired(c.pending[i], now) {
      MaintainPendingHead(c, i + 1, now, dev);
    } else if c.pending[i].retransmissions < MAX_RETRANSMISSIONS {
      hide Send, Expired;
      var p := c.pending[i];
      SendChanges(c, p.segment, p.payload, dev);
      var sent := Send(c, p.segment, p.payload, dev).0;
      MaintainPendingHead(sent.(pending := sent.pending[i := Resent(p, now)]), i + 1, now, dev);
    }
  }

  lemma MaintainStreamCloseHead(c: Connection, now: u64, dev: Device)
    ensures KeepsHead(c, MaintainStreamClose(c, now, dev))
  {
    hide Send;
    MaintainStreamCloseQuiet(c, now, dev);
  }

  lemma FlushHead(c: Connection, now: u64, dev: Device)
    ensures KeepsHead(c, Flush(c, now, dev))
  {
    hide FlushLoop;
    FlushLoopChanges(c, now, dev);
  }

  lemma MaintainCloseHead(c: Connection, now: u64)
    ensures KeepsHead(c, MaintainClose(c, now))
  {
  }

  /** What follows retransmission leaves the oldest pending segment alone. */
  lemma RestHead(c: Connection, now: u64, dev: Device)
    ensures KeepsHead(c, MaintainStreamClose(Flush(MaintainWindow(MaintainClose(c, now), dev), now, dev), now, dev))
  {
    hide MaintainClose, MaintainWindow, Flush, MaintainStreamClose;
    var c2 := MaintainClose(c, now);
    MaintainCloseHead(c, now);
    var c3 := MaintainWindow(c2, dev);
    MaintainWindowQuiet(c2, dev);
    FlushHead(c3, now, dev);
    MaintainStreamCloseHead(Flush(c3, now, dev), now, dev);
  }

  /** The oldest segment after a poll at `now` that did not end the connection. */
  function Retried(p: Pending, now: u64): Pending {
    if Expired(p, now) then Resent(p, now) else p
  }

  lemma MaintainPendingRetries(c: Connection, now: u64, dev: Device)
    requires c.pending != []
    ensures var d := MaintainPending(c, now, dev);
            var p := c.pending[0];
            || d.generation > c.generation
            || (d.generation == c.generation && d.pending != [] && d.pending[0] == Retried(p, now) &&
                (Expired(p, now) ==> p.retransmissions < MAX_RETRANSMISSIONS))
  {
    hide Expired, Send;
    var p := c.pending[0];
    if !Expired(p, now) {
      MaintainPendingHead(c, 1, now, dev);
    } else if p.retransmissions < MAX_RETRANSMISSIONS {
      SendChanges(c, p.segment, p.payload, dev);
      var sent := Send(c, p.segment, p.payload, dev).0;
      MaintainPendingHead(sent.(pending := sent.pending[0 := Resent(p, now)]), 1, now, dev);
    }
  }

  lemma MaintainRetries(c: Connection, now: u64, dev: Device)
    requires c.pending != []
    ensures var d := Maintain(c, now, dev);
            var p := c.pending[0];
            || d.generation > c.generation
            || (d.generation == c.generation && d.pending != [] && d.pending[0] == Retried(p, now) &&
                (Expired(p, now) ==> p.retransmissions < MAX_RETRANSMISSIONS))
  {
    hide MaintainPendingFrom, MaintainClose, MaintainWindow, Flush, MaintainStreamClose, Retried, Expired;
    MaintainPendingRetries(c, now, dev);
    RestHead(MaintainPending(c, now, dev), now, dev);
  }

  // ----- arrivals

  /** The frame does not acknowledge a segment that waits for `word`.  It may carry data, an
      old acknowledgement, or anything else. */
  predicate NoAnswer(f: Frame, word: u32) {
    HasAck(f.segment.flags) ==> !Releases(f.segment.acknowledgement, word)
  }

  lemma SettleHead(c: Connection, r: Received, f: Frame, now: u64, dev: Device)
    requires c.pending != [] && NoAnswer(f, c.pending[0].expected)
    ensures KeepsHead(c, Settle(c, r, f, now, dev))
  {
    hide Respond, Releases;
    var c1 := c.(l := r.listener);
    assert AcknowledgeFor(c1, f.segment, now) == c1;
    RespondHead(Deliver(c1, c.l, f, now), r.reply, now, dev);
  }

  lemma RespondHead(c: Connection, reply: Segment, now: u64, dev: Device)
    requires c.pending != []
    ensures KeepsHead(c, Respond(c, reply, now, dev))
  {
    hide Send, Flush;
    SendChanges(c, reply, [], dev);
    FlushHead(Send(c, reply, [], dev).0, now, dev);
  }

  lemma ArriveHead(c: Connection, f: Frame, now: u64, dev: Device)
    requires c.pending != [] && NoAnswer(f, c.pending[0].expected)
    ensures KeepsHead(c, Arrive(c, f, now, dev))
  {
    hide Settle, Receive, Send;
    ArriveGeneration(c, f, now, dev);
    var d := GiveWay(c, f.segment);
    if d == c {
      SendChanges(c, CurrentAck(c), [], dev);
      SettleHead(c, Receive(c.l, f.segment), f, now, dev);
    }
  }

  // ----- runs

  predicate SilentEvent(e: Event, word: u32) {
    e.PollEvent? && e.arrival.Some? ==> NoAnswer(e.arrival.value, word)
  }

  /** The clock does not run backwards from one poll to the next. */
  predicate InTime(at: u64, events: seq<Event>)
    decreases |events|
  {
    events == [] ||
    (if events[0].PollEvent? then at <= events[0].now && InTime(events[0].now, events[1..])
     else InTime(at, events[1..]))
  }

  /** How many polls there are, each at least two seconds after the one counted before. */
  function Rounds(at: u64, events: seq<Event>): nat
    decreases |events|
  {
    if events == [] then 0
    else if events[0].PollEvent? && events[0].now - at >= RTO_MAXIMUM
    then 1 + Rounds(events[0].now, events[1..])
    else Rounds(at, events[1..])
  }

  /** The oldest segment waits for `word`.  It was resent `n` times by `at`, or more often
      by `clock`. */
  predicate Waiting(c: Connection, word: u32, at: u64, clock: u64, n: nat) {
    && c.pending != [] && c.pending[0].expected == word && at <= clock
    && var p := c.pending[0];
       (p.sentAt <= at && p.retransmissions >= n) || (p.sentAt <= clock && p.retransmissions >= n + 1)
  }

  lemma PollWaits(c: Connection, word: u32, at: u64, clock: u64, n: nat, e: Event, dev: Device)
    requires Bounded(c) && Waiting(c, word, at, clock, n) && e.PollEvent? && clock <= e.now && SilentEvent(e, word)
    ensures var d := Step(c, e, dev);
            || d.generation > c.generation
            || (&& d.generation == c.generation && Waiting(d, word, at, e.now, n)
                && (e.now - at >= RTO_MAXIMUM ==> Waiting(d, word, e.now, e.now, n + 1)))
  {
    hide Maintain, Arrive, U64, NoAnswer;
    MaintainRetries(c, e.now, dev);
    var p := c.pending[0];
    assert Timely(p);
    U64Small(e.now - p.sentAt);
    var d := Maintain(c, e.now, dev);
    if e.arrival.Some? {
      ArriveGeneration(d, e.arrival.value, e.late, dev);
      if d.generation == c.generation { ArriveHead(d, e.arrival.value, e.late, dev); }
    }
  }

  lemma CallWaits(c: Connection, e: Event, dev: Device)
    requires !e.PollEvent?
    ensures var d := Step(c, e, dev);
            d.generation == c.generation && d.pending == c.pending
  {
  }

  /** A silent peer ends the connection.  Take any run in which no frame acknowledges the
      oldest segment in flight, with any other frames arriving and any reads, writes and
      closes in between.  As soon as the run has held four polls (less what was already
      resent) at least two seconds apart, that connection is gone. */
  lemma {:induction false} SilenceEndsConnection(c: Connection, g: Log, events: seq<Event>, word: u32,
                                                 at: u64, clock: u64, n: nat, dev: Device)
    requires Bounded(c) && Waiting(c, word, at, clock, n) && InTime(clock, events)
    requires forall e :: e in events ==> SilentEvent(e, word)
    requires Rounds(at, events) + n > MAX_RETRANSMISSIONS
    ensures Run(c, g, events, dev).0.generation > c.generation
    decreases |events|
  {
    hide Step, LogStep, SilentEvent;
    assert n <= MAX_RETRANSMISSIONS by { assert Timely(c.pending[0]); }
    if events == [] {
      assert false;
    } else {
      hide Bounded, Waiting;
      var e := events[0];
      assert e in events && forall k :: k in events[1..] ==> k in events;
      var d, h := Step(c, e, dev), LogStep(g, c, e, dev);
      StepBounded(c, e, dev);
      if !e.PollEvent? {
        CallWaits(c, e, dev);
        SameWaits(c, d, word, at, clock, n);
        SilenceEndsConnection(d, h, events[1..], word, at, clock, n, dev);
      } else {
        PollWaits(c, word, at, clock, n, e, dev);
        if d.generation > c.generation {
          RunGeneration(d, h, events[1..], dev);
        } else if e.now - at >= RTO_MAXIMUM {
          SilenceEndsConnection(d, h, events[1..], word, e.now, e.now, n + 1, dev);
        } else {
          SilenceEndsConnection(d, h, events[1..], word, at, e.now, n, dev);
        }
      }
    }
  }

  lemma SameWaits(c: Connection, d: Connection, word: u32, at: u64, clock: u64, n: nat)
    requires Waiting(c, word, at, clock, n) && d.pending == c.pending
    ensures Waiting(d, word, at, clock, n)
  {
  }

  // ----- backing off

  function Doubled(k: nat): nat {
    if k == 0 then 1 else 2 * Doubled(k - 1)
  }

  /** `q` is the segment `p` after some more transmissions: the same segment, waiting twice as
      long each time, up to two seconds. */
  predicate Descends(p: Pending, q: Pending) {
    && q.segment == p.segment && q.payload == p.payload && q.expected == p.expected
    && q.retransmissions >= p.retransmissions
    && q.timeout == Min(RTO_MAXIMUM, p.timeout * Doubled(q.retransmissions - p.retransmissions))
  }

  lemma RetriedDescends(p: Pending, q: Pending, now: u64)
    requires Descends(p, q)
    ensures Descends(p, Retried(q, now))
  {
    hide Expired;
    var k := q.retransmissions - p.retransmissions;
    assert Doubled(k + 1) == 2 * Doubled(k);
    assert p.timeout * Doubled(k + 1) == 2 * (p.timeout * Doubled(k));
  }

  lemma {:induction false} HeadDescends(c: Connection, g: Log, p: Pending, events: seq<Event>, dev: Device)
    requires c.pending != [] && Descends(p, c.pending[0])
    requires forall e :: e in events ==> SilentEvent(e, p.expected)
    ensures var d := Run(c, g, events, dev).0;
            d.generation > c.generation || (d.pending != [] && Descends(p, d.pending[0]))
    decreases |events|
  {
    hide Step, LogStep, Descends, SilentEvent;
    if events != [] {
      var e := events[0];
      assert e in events && forall k :: k in events[1..] ==> k in events;
      var d, h := Step(c, e, dev), LogStep(g, c, e, dev);
      StepDescends(c, p, e, dev);
      StepGeneration(c, e, dev);
      if d.generation > c.generation {
        RunGeneration(d, h, events[1..], dev);
      } else {
        HeadDescends(d, h, p, events[1..], dev);
      }
    }
  }

  lemma StepDescends(c: Connection, p: Pending, e: Event, dev: Device)
    requires c.pending != [] && Descends(p, c.pending[0]) && SilentEvent(e, p.expected)
    ensures var d := Step(c, e, dev);
            d.generation > c.generation || (d.pending != [] && Descends(p, d.pending[0]))
  {
    hide Maintain, Arrive, NoAnswer, Retried;
    if !e.PollEvent? {
      CallWaits(c, e, dev);
    } else {
      MaintainRetries(c, e.now, dev);
      RetriedDescends(p, c.pending[0], e.now);
      var d := Maintain(c, e.now, dev);
      if e.arrival.Some? {
        ArriveGeneration(d, e.arrival.value, e.late, dev);
        if d.generation == c.generation { ArriveHead(d, e.arrival.value, e.late, dev); }
      }
    }
  }

  /** Along any run in which nobody acknowledges it, the oldest segment in flight stays what
      it was, and its wait after `k` more transmissions is 2^k times the first, up to 2000 ms. */
  lemma BacksOff(c: Connection, g: Log, events: seq<Event>, dev: Device)
    requires c.pending != [] && c.pending[0].timeout <= RTO_MAXIMUM
    requires forall e :: e in events ==> SilentEvent(e, c.pending[0].expected)
    ensures var d := Run(c, g, events, dev).0;
            d.generation > c.generation || (d.pending != [] && Descends(c.pending[0], d.pending[0]))
  {
    hide Run, SilentEvent;
    assert Doubled(0) == 1;
    HeadDescends(c, g, c.pending[0], events, dev);
  }
}
