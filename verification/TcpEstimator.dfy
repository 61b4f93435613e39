/** What the round-trip estimator computes (section 2 of RFC 6298). */
module TcpEstimator {
  import opened Words
  import opened Wrappers
  import opened TcpConnection
  import opened TcpSending
  import opened TcpSafety
  import opened TcpArrival
  import opened TcpTimers

  function Distance(x: int, y: int): nat {
    if x < y then y - x else x - y
  }

  function Clamp(x: int): int {
    if x < RTO_MINIMUM then RTO_MINIMUM else if x > RTO_MAXIMUM then RTO_MAXIMUM else x
  }

  /** Values that no clock below 2^60 ms makes wrap. */
  predicate Small(r: RoundTrip) {
    r.smoothed < CLOCK_LIMIT && r.variance < CLOCK_LIMIT
  }

  /** The timeout that the RFC derives from an estimate, with a granularity of 10 ms. */
  predicate TimeoutFits(r: RoundTrip) {
    r.timeout == Clamp(r.smoothed + if 4 * r.variance < 10 then 10 else 4 * r.variance)
  }

  // ----- one sample

  /** The first sample is the estimate, and half of it the variance. */
  lemma FirstSample(r: RoundTrip, sample: u64)
    requires r.smoothed == 0 && sample < CLOCK_LIMIT
    ensures var q := UpdateRoundTrip(r, sample);
            && q.smoothed == Raised(sample) && q.variance == Raised(sample) / 2
            && TimeoutFits(q) && Small(q)
  {
    hide U64;
    var x := Raised(sample);
    U64Small(4 * (x / 2));
    U64Small(x + if 4 * (x / 2) < 10 then 10 else 4 * (x / 2));
  }

  /** Every further sample counts one eighth in the smoothed value and one quarter in the
      variance, which takes the distance to the value before; both are rounded down. */
  lemma NextSample(r: RoundTrip, sample: u64)
    requires r.smoothed != 0 && Small(r) && sample < CLOCK_LIMIT
    ensures var q := UpdateRoundTrip(r, sample);
            var x := Raised(sample);
            && 8 * q.smoothed <= 7 * r.smoothed + x < 8 * q.smoothed + 8
            && 4 * q.variance <= 3 * r.variance + Distance(r.smoothed, x) < 4 * q.variance + 4
            && TimeoutFits(q) && Small(q) && q.smoothed != 0
  {
    hide U64;
    var x := Raised(sample);
    var s, v := (7 * r.smoothed + x) / 8, (3 * r.variance + Distance(r.smoothed, x)) / 4;
    U64Small(7 * r.smoothed + x);
    U64Small(3 * r.variance + Distance(r.smoothed, x));
    U64Small(4 * v);
    U64Small(s + if 4 * v < 10 then 10 else 4 * v);
  }

  /** One sample moves the smoothed value towards it, never past it, by an eighth of the way
      rounded up or down, and the variance by a quarter of its way to the distance. */
  lemma MovesAnEighth(r: RoundTrip, sample: u64)
    requires r.smoothed != 0 && Small(r) && sample < CLOCK_LIMIT
    ensures var q := UpdateRoundTrip(r, sample);
            var x := Raised(sample);
            var d := Distance(r.smoothed, x);
            && (r.smoothed <= x ==> r.smoothed <= q.smoothed <= x && q.smoothed - r.smoothed == d / 8)
            && (r.smoothed > x ==> x <= q.smoothed < r.smoothed && r.smoothed - q.smoothed == (d + 7) / 8)
            && (r.variance <= d ==> r.variance <= q.variance <= d)
            && (r.variance > d ==> d <= q.variance < r.variance)
            && 4 * Distance(q.variance, r.variance) <= Distance(d, r.variance) + 3
  {
    hide UpdateRoundTrip;
    NextSample(r, sample);
  }

  // ----- constant samples

  function Repeated(x: u64, n: nat): seq<u64> {
    seq(n, _ => x)
  }

  lemma RepeatedStep(r: RoundTrip, x: u64, n: nat)
    ensures Estimate(r, Repeated(x, n + 1)) == Estimate(UpdateRoundTrip(r, x), Repeated(x, n))
  {
    hide UpdateRoundTrip;
    assert Repeated(x, n + 1)[1..] == Repeated(x, n);
  }

  /** A peer whose round trip is always `x`, from the first sample on: the smoothed value is
      `x` itself, the variance shrinks by a quarter with every sample, and after at most as
      many samples as it had milliseconds the timeout is `x + 10`, within its bounds. */
  lemma {:induction false} SteadyPeer(r: RoundTrip, x: u64, n: nat)
    requires 0 < x < CLOCK_LIMIT && r.smoothed == x && r.variance < CLOCK_LIMIT && TimeoutFits(r)
    ensures var q := Estimate(r, Repeated(x, n));
            && q.smoothed == x && q.variance <= r.variance && TimeoutFits(q)
            && (n > 0 && r.variance > 0 ==> q.variance < r.variance)
            && (n >= r.variance ==> q.variance == 0 && q.timeout == Clamp(x + 10))
    decreases n
  {
    hide UpdateRoundTrip;
    if n == 0 {
      assert Repeated(x, 0) == [];
    } else {
      RepeatedStep(r, x, n - 1);
      NextSample(r, x);
      SteadyPeer(UpdateRoundTrip(r, x), x, n - 1);
    }
  }

  lemma FirstThenSteady(r: RoundTrip, x: u64, n: nat)
    requires r.smoothed == 0 && 0 < x < CLOCK_LIMIT
    ensures var q := Estimate(r, Repeated(x, n + 1));
            && q.smoothed == x && q.variance <= x / 2
            && (n >= x / 2 ==> q.variance == 0 && q.timeout == Clamp(x + 10))
  {
    hide UpdateRoundTrip;
    RepeatedStep(r, x, n);
    FirstSample(r, x);
    SteadyPeer(UpdateRoundTrip(r, x), x, n);
  }

  /** From any estimate, a constant round trip is approached: the distance never grows, and
      it shrinks with every sample while it is 8 or more, or on the far side. */
  lemma {:induction false} Converges(r: RoundTrip, x: u64, n: nat)
    requires r.smoothed != 0 && Small(r) && 0 < x < CLOCK_LIMIT
    ensures var q := Estimate(r, Repeated(x, n));
            && Small(q) && q.smoothed != 0
            && Distance(q.smoothed, x) <= Distance(r.smoothed, x)
            && (n >= Distance(r.smoothed, x) ==> Distance(q.smoothed, x) < 8)
            && (r.smoothed >= x && n >= Distance(r.smoothed, x) ==> q.smoothed == x)
    decreases n
  {
    hide UpdateRoundTrip;
    if n == 0 {
      assert Repeated(x, 0) == [];
    } else {
      RepeatedStep(r, x, n - 1);
      NextSample(r, x);
      MovesAnEighth(r, x);
      Converges(UpdateRoundTrip(r, x), x, n - 1);
    }
  }

  // ----- every reachable state

  lemma {:induction false} EstimateFits(r: RoundTrip, samples: seq<u64>)
    requires Small(r) && (r.smoothed != 0 ==> TimeoutFits(r))
    requires forall x :: x in samples ==> x < CLOCK_LIMIT
    ensures var q := Estimate(r, samples);
            Small(q) && (q.smoothed != 0 ==> TimeoutFits(q)) && (q.smoothed == 0 ==> q == r)
    decreases |samples|
  {
    hide UpdateRoundTrip, TimeoutFits;
    if samples != [] {
      assert samples[0] in samples && forall x :: x in samples[1..] ==> x in samples;
      if r.smoothed == 0 { FirstSample(r, samples[0]); } else { NextSample(r, samples[0]); }
      EstimateFits(UpdateRoundTrip(r, samples[0]), samples[1..]);
    }
  }

  /** In every reachable state, with clocks below 2^60 ms: the timeout for new segments is
      the one that follows from the estimate, and before the first sample it is what it was. */
  lemma TimeoutFollowsEstimate(c: Connection, g: Log, events: seq<Event>, dev: Device)
    requires forall e :: e in events ==> Before60(e)
    requires Small(c.rtt) && (c.rtt.smoothed != 0 ==> TimeoutFits(c.rtt))
    ensures var d := Run(c, g, events, dev).0;
            && (d.rtt.smoothed != 0 ==> TimeoutFits(d.rtt))
            && (d.rtt.smoothed == 0 ==> d.rtt == c.rtt && RunSamples(c, events, dev) == [])
  {
    hide Run, RunSamples, Before60, Estimate, TimeoutFits;
    SamplesBelow(c, events, dev);
    EstimateOverRun(c, g, events, dev);
    EstimateFits(c.rtt, RunSamples(c, events, dev));
    NeverWithoutEstimateAgain(c, g, events, dev);
  }
}
