/** The round-trip estimate and bounded retransmission (sections 2, 3 and 5 of RFC 6298). */
module TcpTimers {
  import opened Words
  import opened Wrappers
  import opened TcpListener
  import opened TcpConnection
  import opened TcpSending
  import opened TcpSafety
  import opened TcpArrival
  import opened TcpDelivery

  // ----- the round-trip estimate

  const CLOCK_LIMIT: int := 0x1000_0000_0000_0000

  predicate InRange(r: RoundTrip, lo: int, hi: int) {
    (r.smoothed == 0 || lo <= r.smoothed <= hi) && r.variance <= hi
  }

  /** An elapsed time of 0 ms counts as 1, because 0 stands for "no sample yet". */
  function Raised(sample: u64): u64 {
    if sample == 0 then 1 else sample
  }

  /** A clock below 2^60 ms never makes the estimator wrap, and then the smoothed
      value stays between the smallest and the largest sample. */
  lemma UpdateInRange(r: RoundTrip, sample: u64, lo: int, hi: int)
    requires 1 <= lo <= hi < CLOCK_LIMIT
    requires InRange(r, lo, hi)
    requires lo <= Raised(sample) <= hi
    ensures InRange(UpdateRoundTrip(r, sample), lo, hi)
    ensures lo <= UpdateRoundTrip(r, sample).smoothed <= hi
    ensures RTO_MINIMUM <= UpdateRoundTrip(r, sample).timeout <= RTO_MAXIMUM
  {
    hide U64;
    var x := Raised(sample);
    var difference := if r.smoothed > x then r.smoothed - x else x - r.smoothed;
    U64Small(7 * r.smoothed + x);
    U64Small(3 * r.variance + difference);
    var s, v := (7 * r.smoothed + x) / 8, (3 * r.variance + difference) / 4;
    if r.smoothed == 0 {
      s, v := x, x / 2;
    } else {
      assert 8 * lo <= 7 * r.smoothed + x <= 8 * hi;
      assert 3 * r.variance + difference <= 4 * hi;
    }
    U64Small(4 * v);
    U64Small(s + if 4 * v < 10 then 10 else 4 * v);
  }

  function Estimate(r: RoundTrip, samples: seq<u64>): RoundTrip
    decreases |samples|
  {
    if samples == [] then r else Estimate(UpdateRoundTrip(r, samples[0]), samples[1..])
  }

  /** After any sequence of samples the smoothed round-trip time lies in their
      range; it never returns to 0. */
  lemma {:induction false} SmoothedStaysInRange(r: RoundTrip, samples: seq<u64>, lo: int, hi: int)
    requires 1 <= lo <= hi < CLOCK_LIMIT
    requires InRange(r, lo, hi)
    requires forall x :: x in samples ==> lo <= Raised(x) <= hi
    ensures InRange(Estimate(r, samples), lo, hi)
    ensures r.smoothed != 0 || samples != [] ==> lo <= Estimate(r, samples).smoothed <= hi
    decreases |samples|
  {
    hide UpdateRoundTrip, Raised;
    if samples != [] {
      assert samples[0] in samples;
      UpdateInRange(r, samples[0], lo, hi);
      assert forall x :: x in samples[1..] ==> x in samples;
      SmoothedStaysInRange(UpdateRoundTrip(r, samples[0]), samples[1..], lo, hi);
    }
  }

  lemma {:induction false} EstimateJoin(r: RoundTrip, xs: seq<u64>, ys: seq<u64>)
    ensures Estimate(r, xs + ys) == Estimate(Estimate(r, xs), ys)
    decreases |xs|
  {
    hide UpdateRoundTrip;
    if xs == [] {
      assert [] + ys == ys;
    } else {
      assert (xs + ys)[1..] == xs[1..] + ys;
      EstimateJoin(UpdateRoundTrip(r, xs[0]), xs[1..], ys);
    }
  }

  // ----- the estimate along a run

  /** The elapsed times of the segments that `word` releases and that were never resent
      (section 3 of RFC 6298). */
  function Elapsed(p: seq<Pending>, now: u64, word: u32): seq<u64>
    decreases |p|
  {
    if p == [] || !Releases(word, p[0].expected) then []
    else
      (if p[0].retransmissions == 0 && now >= p[0].sentAt then [now - p[0].sentAt] else []) +
      Elapsed(p[1..], now, word)
  }

  /** The samples that one event brings: those of the frame it handles, if the connection
      machine takes that frame and it carries an acknowledgement. */
  function StepSamples(c: Connection, e: Event, dev: Device): seq<u64> {
    if e.PollEvent? && e.arrival.Some?
    then ArrivalSamples(GiveWay(Maintain(c, e.now, dev), e.arrival.value.segment), e.arrival.value, e.late)
    else []
  }

  function ArrivalSamples(c: Connection, f: Frame, late: u64): seq<u64> {
    if Matches(c.l, f.segment) && !TooLong(c, f) && Receive(c.l, f.segment).ok && HasAck(f.segment.flags)
    then Elapsed(c.pending, late, f.segment.acknowledgement)
    else []
  }

  function RunSamples(c: Connection, events: seq<Event>, dev: Device): seq<u64>
    decreases |events|
  {
    if events == [] then []
    else StepSamples(c, events[0], dev) + RunSamples(Step(c, events[0], dev), events[1..], dev)
  }

  lemma {:induction false} AcknowledgeSamples(c: Connection, now: u64, word: u32)
    ensures Acknowledge(c, now, word).rtt == Estimate(c.rtt, Elapsed(c.pending, now, word))
    decreases |c.pending|
  {
    hide UpdateRoundTrip, Releases;
    if c.pending != [] && Releases(word, c.pending[0].expected) {
      var p := c.pending[0];
      var mine := if p.retransmissions == 0 && now >= p.sentAt then [now - p.sentAt] else [];
      var rtt := if p.retransmissions == 0 && now >= p.sentAt
                 then UpdateRoundTrip(c.rtt, now - p.sentAt) else c.rtt;
      assert mine != [] ==> mine[1..] == [];
      assert rtt == Estimate(c.rtt, mine);
      AcknowledgeSamples(c.(rtt := rtt, pending := c.pending[1..]), now, word);
      EstimateJoin(c.rtt, mine, Elapsed(c.pending[1..], now, word));
    }
  }

  lemma {:induction false} ElapsedBelow(p: seq<Pending>, now: u64, word: u32)
    ensures forall x :: x in Elapsed(p, now, word) ==> x <= now
  {
    if p != [] { ElapsedBelow(p[1..], now, word); }
  }

  /** Maintenance does not touch the estimate. */
  lemma MaintainEstimate(c: Connection, now: u64, dev: Device)
    ensures Maintain(c, now, dev).rtt == c.rtt
  {
    hide MaintainPendingFrom, MaintainWindow, Flush, MaintainStreamClose;
    var c1 := MaintainPending(c, now, dev);
    MaintainPendingEstimate(c, 0, now, dev);
    var c2 := MaintainClose(c1, now);
    MaintainWindowQuiet(c2, dev);
    var c3 := MaintainWindow(c2, dev);
    FlushEstimate(c3, now, dev);
    MaintainStreamCloseEstimate(Flush(c3, now, dev), now, dev);
  }

  lemma {:induction false} MaintainPendingEstimate(c: Connection, i: nat, now: u64, dev: Device)
    ensures MaintainPendingFrom(c, i, now, dev).rtt == c.rtt
    decreases |c.pending| - i
  {
    if i >= |c.pending| {
    } else if !Expired(c.pending[i], now) {
      MaintainPendingEstimate(c, i + 1, now, dev);
    } else if c.pending[i].retransmissions < MAX_RETRANSMISSIONS {
      hide Send, Expired;
      var p := c.pending[i];
      var sent := Send(c, p.segment, p.payload, dev).0;
      SendChanges(c, p.segment, p.payload, dev);
      MaintainPendingEstimate(sent.(pending := sent.pending[i := Resent(p, now)]), i + 1, now, dev);
    }
  }

  lemma FlushEstimate(c: Connection, now: u64, dev: Device)
    ensures Flush(c, now, dev).rtt == c.rtt
  {
    hide FlushLoop;
    FlushLoopChanges(c, now, dev);
  }

  lemma MaintainStreamCloseEstimate(c: Connection, now: u64, dev: Device)
    ensures MaintainStreamClose(c, now, dev).rtt == c.rtt
  {
    hide Send;
    var c1 := if c.closeStarted == 0 then c.(closeStarted := now) else c;
    if Connected(c1) {
      var (l, fin) := BeginClose(c1.l);
      SendChanges(c1.(l := l, closeRequested := false), fin, [], dev);
    }
  }

  lemma RespondEstimate(c: Connection, reply: Segment, now: u64, dev: Device)
    ensures Respond(c, reply, now, dev).rtt == c.rtt
  {
    hide Send, Flush;
    SendChanges(c, reply, [], dev);
    var c1 := Send(c, reply, [], dev).0;
    var c2 := if reply.flags == SYN + ACK && c1.pending == []
              then Remember(c1, now, reply, []).0 else c1;
    FlushEstimate(c2, now, dev);
  }

  lemma SettleEstimate(c: Connection, r: Received, f: Frame, now: u64, dev: Device)
    ensures Settle(c, r, f, now, dev).rtt ==
            Estimate(c.rtt, if r.ok && HasAck(f.segment.flags)
                            then Elapsed(c.pending, now, f.segment.acknowledgement) else [])
  {
    hide Acknowledge, Respond, Estimate, Elapsed;
    NoSamples(c.rtt);
    var c1 := c.(l := r.listener);
    AcknowledgeSamples(c1, now, f.segment.acknowledgement);
    var c2 := AcknowledgeFor(c1, f.segment, now);
    RespondEstimate(Deliver(c2, c.l, f, now), r.reply, now, dev);
  }

  lemma NoSamples(r: RoundTrip)
    ensures Estimate(r, []) == r
  {
  }

  lemma StepEstimate(c: Connection, e: Event, dev: Device)
    ensures Step(c, e, dev).rtt == Estimate(c.rtt, StepSamples(c, e, dev))
  {
    hide Maintain, Settle, Receive, Send, Estimate, Elapsed;
    NoSamples(c.rtt);
    if e.PollEvent? {
      MaintainEstimate(c, e.now, dev);
      if e.arrival.Some? {
        var f := e.arrival.value;
        var d := GiveWay(Maintain(c, e.now, dev), f.segment);
        SendChanges(d, CurrentAck(d), [], dev);
        SettleEstimate(d, Receive(d.l, f.segment), f, e.late, dev);
      }
    }
  }

  /** The estimate of an endpoint after any run is the estimator applied to the elapsed
      times of the segments that were acknowledged without having been resent, in order,
      over all its connections. */
  lemma {:induction false} EstimateOverRun(c: Connection, g: Log, events: seq<Event>, dev: Device)
    ensures Run(c, g, events, dev).0.rtt == Estimate(c.rtt, RunSamples(c, events, dev))
    decreases |events|
  {
    if events == [] {
      NoSamples(c.rtt);
    } else {
      hide Step, LogStep, StepSamples, Estimate;
      var d := Step(c, events[0], dev);
      StepEstimate(c, events[0], dev);
      EstimateOverRun(d, LogStep(g, c, events[0], dev), events[1..], dev);
      EstimateJoin(c.rtt, StepSamples(c, events[0], dev), RunSamples(d, events[1..], dev));
    }
  }

  predicate Before60(e: Event) {
    e.PollEvent? ==> e.late < CLOCK_LIMIT
  }

  lemma {:induction false} SamplesBelow(c: Connection, events: seq<Event>, dev: Device)
    requires forall e :: e in events ==> Before60(e)
    ensures forall x :: x in RunSamples(c, events, dev) ==> x < CLOCK_LIMIT
    decreases |events|
  {
    if events != [] {
      hide Step, Maintain, Receive, Elapsed;
      var e := events[0];
      assert e in events && forall k :: k in events[1..] ==> k in events;
      if e.PollEvent? && e.arrival.Some? {
        var f := e.arrival.value;
        ElapsedBelow(GiveWay(Maintain(c, e.now, dev), f.segment).pending, e.late, f.segment.acknowledgement);
      }
      SamplesBelow(Step(c, e, dev), events[1..], dev);
    }
  }

  /** Every reachable state: the smoothed round-trip time lies in the range of the elapsed
      times (and of the value at the start), and once there was a sample it is never 0
      again. */
  lemma SmoothedOverRun(c: Connection, g: Log, events: seq<Event>, lo: int, hi: int, dev: Device)
    requires 1 <= lo <= hi < CLOCK_LIMIT && InRange(c.rtt, lo, hi)
    requires forall x :: x in RunSamples(c, events, dev) ==> lo <= Raised(x) <= hi
    ensures var d := Run(c, g, events, dev).0;
            && InRange(d.rtt, lo, hi)
            && (c.rtt.smoothed != 0 || RunSamples(c, events, dev) != [] ==> lo <= d.rtt.smoothed <= hi)
  {
    hide Estimate, Run, RunSamples, InRange;
    EstimateOverRun(c, g, events, dev);
    SmoothedStaysInRange(c.rtt, RunSamples(c, events, dev), lo, hi);
  }

  /** In particular the estimator never wraps and never forgets that it has a sample. */
  lemma NeverWithoutEstimateAgain(c: Connection, g: Log, events: seq<Event>, dev: Device)
    requires forall e :: e in events ==> Before60(e)
    requires c.rtt.smoothed < CLOCK_LIMIT && c.rtt.variance < CLOCK_LIMIT
    ensures var d := Run(c, g, events, dev).0;
            && d.rtt.smoothed < CLOCK_LIMIT && d.rtt.variance < CLOCK_LIMIT
            && (c.rtt.smoothed != 0 || RunSamples(c, events, dev) != [] ==> d.rtt.smoothed != 0)
  {
    hide Run, RunSamples, Before60;
    SamplesBelow(c, events, dev);
    SmoothedOverRun(c, g, events, 1, CLOCK_LIMIT - 1, dev);
  }

  // ----- every timeout lies between 100 ms and 2 s, and nothing is resent four times

  predicate InBounds(timeout: int) {
    RTO_MINIMUM <= timeout <= RTO_MAXIMUM
  }

  predicate Timely(p: Pending) {
    InBounds(p.timeout) && p.retransmissions <= MAX_RETRANSMISSIONS
  }

  predicate Bounded(c: Connection) {
    InBounds(c.rtt.timeout) && forall p :: p in c.pending ==> Timely(p)
  }

  lemma {:induction false} AcknowledgeBounded(c: Connection, now: u64, word: u32)
    requires Bounded(c)
    ensures Bounded(Acknowledge(c, now, word))
    decreases |c.pending|
  {
    if c.pending != [] && Releases(word, c.pending[0].expected) {
      hide U64;
      var p := c.pending[0];
      var rtt := if p.retransmissions == 0 && now >= p.sentAt
                 then UpdateRoundTrip(c.rtt, now - p.sentAt) else c.rtt;
      AcknowledgeBounded(c.(rtt := rtt, pending := c.pending[1..]), now, word);
    }
  }

  lemma {:induction false} MaintainPendingBounded(c: Connection, i: nat, now: u64, dev: Device)
    requires Bounded(c)
    ensures Bounded(MaintainPendingFrom(c, i, now, dev))
    decreases |c.pending| - i
  {
    if i >= |c.pending| {
    } else if !Expired(c.pending[i], now) {
      MaintainPendingBounded(c, i + 1, now, dev);
    } else if c.pending[i].retransmissions < MAX_RETRANSMISSIONS {
      hide Send, Expired;
      var p := c.pending[i];
      assert Timely(p);
      SendChanges(c, p.segment, p.payload, dev);
      var sent := Send(c, p.segment, p.payload, dev).0;
      assert Timely(Resent(p, now));
      MaintainPendingBounded(sent.(pending := sent.pending[i := Resent(p, now)]), i + 1, now, dev);
    }
  }

  lemma FlushBounded(c: Connection, now: u64, dev: Device)
    requires Bounded(c)
    ensures Bounded(Flush(c, now, dev))
  {
    hide FlushLoop;
    FlushLoopChanges(c, now, dev);
    var d := FlushLoop(c, now, dev);
    forall p | p in d.pending ensures Timely(p) {
      var k :| 0 <= k < |d.pending| && d.pending[k] == p;
      if k < |c.pending| { assert d.pending[k] == c.pending[k]; }
    }
  }

  lemma MaintainStreamCloseBounded(c: Connection, now: u64, dev: Device)
    requires Bounded(c)
    ensures Bounded(MaintainStreamClose(c, now, dev))
  {
    hide Send;
    var c1 := if c.closeStarted == 0 then c.(closeStarted := now) else c;
    if Connected(c1) {
      var (l, fin) := BeginClose(c1.l);
      SendChanges(c1.(l := l, closeRequested := false), fin, [], dev);
    }
  }

  lemma MaintainBounded(c: Connection, now: u64, dev: Device)
    requires Bounded(c)
    ensures Bounded(Maintain(c, now, dev))
  {
    hide MaintainPendingFrom, MaintainWindow, Flush, MaintainStreamClose;
    MaintainPendingBounded(c, 0, now, dev);
    var c1 := MaintainClose(MaintainPending(c, now, dev), now);
    MaintainWindowQuiet(c1, dev);
    var c3 := MaintainWindow(c1, dev);
    FlushBounded(c3, now, dev);
    MaintainStreamCloseBounded(Flush(c3, now, dev), now, dev);
  }

  lemma RespondBounded(c: Connection, reply: Segment, now: u64, dev: Device)
    requires Bounded(c)
    ensures Bounded(Respond(c, reply, now, dev))
  {
    hide Send, Flush;
    SendChanges(c, reply, [], dev);
    var c1 := Send(c, reply, [], dev).0;
    var c2 := if reply.flags == SYN + ACK && c1.pending == []
              then Remember(c1, now, reply, []).0 else c1;
    FlushBounded(c2, now, dev);
  }

  lemma SettleBounded(c: Connection, r: Received, f: Frame, now: u64, dev: Device)
    requires Bounded(c)
    ensures Bounded(Settle(c, r, f, now, dev))
  {
    hide Acknowledge, Respond;
    var c1 := c.(l := r.listener);
    AcknowledgeBounded(c1, now, f.segment.acknowledgement);
    var c2 := AcknowledgeFor(c1, f.segment, now);
    RespondBounded(Deliver(c2, c.l, f, now), r.reply, now, dev);
  }

  lemma ArriveBounded(c: Connection, f: Frame, now: u64, dev: Device)
    requires Bounded(c)
    ensures Bounded(Arrive(c, f, now, dev))
  {
    hide Settle, Receive, Send;
    var d := GiveWay(c, f.segment);
    SendChanges(d, CurrentAck(d), [], dev);
    SettleBounded(d, Receive(d.l, f.segment), f, now, dev);
  }

  lemma StepBounded(c: Connection, e: Event, dev: Device)
    requires Bounded(c)
    ensures Bounded(Step(c, e, dev))
  {
    hide Maintain, Arrive;
    if e.PollEvent? {
      MaintainBounded(c, e.now, dev);
      if e.arrival.Some? {
        ArriveBounded(Maintain(c, e.now, dev), e.arrival.value, e.late, dev);
      }
    }
  }

  /** In every reachable state the endpoint's timeout and every pending timeout lie
      in [100, 2000] ms and no pending segment was resent more than three times. */
  lemma {:induction false} TimeoutsStayBounded(c: Connection, g: Log, events: seq<Event>, dev: Device)
    requires Bounded(c)
    ensures Bounded(Run(c, g, events, dev).0)
    decreases |events|
  {
    if events != [] {
      hide Step, LogStep, Bounded;
      StepBounded(c, events[0], dev);
      TimeoutsStayBounded(Step(c, events[0], dev), LogStep(g, c, events[0], dev), events[1..], dev);
    }
  }
}
