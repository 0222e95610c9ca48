/**
 The integer round-trip estimator of `updateRTT` and the timeout doubling of
 `retransmissionLoop`. All durations are nanoseconds; every division is on
 non-negative operands, where Go's and Dafny's quotients agree.
 */
module RttEstimator {
  import opened Base

  const MILLISECOND: int := 1_000_000
  const INITIAL_RTO: int := 100 * MILLISECOND
  const MIN_RTO: int := 10 * MILLISECOND
  const MAX_RTO: int := 5_000 * MILLISECOND

  datatype Rtt = Rtt(srtt: int, rttvar: int, rto: int, measured: bool)

  const INITIAL := Rtt(0, 0, INITIAL_RTO, false)

  function Abs(x: int): int {
    if x < 0 then -x else x
  }

  /** One round-trip sample. */
  function Sample(r: Rtt, rtt: nat): Rtt {
    var srtt := if r.measured then r.srtt * 7 / 8 + rtt / 8 else rtt;
    var rttvar := if r.measured then r.rttvar * 3 / 4 + Abs(srtt - rtt) / 4 else rtt / 2;
    Rtt(srtt, rttvar, Clamp(MIN_RTO, MAX_RTO, srtt + 4 * rttvar), true)
  }

  /** One retransmission cycle that found a timed-out packet. */
  function Backoff(r: Rtt): Rtt {
    r.(rto := Min(r.rto * 2, MAX_RTO))
  }

  datatype Event = Measured(rtt: nat) | TimedOut

  function Apply(r: Rtt, es: seq<Event>): Rtt {
    if es == [] then r
    else
      var p := Apply(r, es[..|es| - 1]);
      match es[|es| - 1]
      case Measured(rtt) => Sample(p, rtt)
      case TimedOut => Backoff(p)
  }

  ghost predicate SamplesWithin(es: seq<Event>, lo: nat, hi: nat) {
    forall e <- es :: e.Measured? ==> lo <= e.rtt <= hi
  }

  /** What every run with samples in [lo, hi] keeps. */
  ghost predicate Within(r: Rtt, lo: nat, hi: nat) {
    && MIN_RTO <= r.rto <= MAX_RTO
    && (r.measured ==>
          && 0 <= r.srtt && lo - 14 <= r.srtt <= hi
          && 0 <= r.rttvar <= Max(hi / 2, hi - lo + 14))
  }

  lemma SampleKeepsWithin(r: Rtt, rtt: nat, lo: nat, hi: nat)
    requires Within(r, lo, hi) && lo <= rtt <= hi
    ensures Within(Sample(r, rtt), lo, hi)
  {
    if r.measured {
      var s := Sample(r, rtt);
      assert Abs(s.srtt - rtt) <= hi - lo + 14;
    }
  }

  /** Truncation costs the smoothed value at most 14 ns, over every run. */
  lemma {:induction false} RunStaysWithin(es: seq<Event>, lo: nat, hi: nat)
    requires SamplesWithin(es, lo, hi)
    ensures Within(Apply(INITIAL, es), lo, hi)
  {
    if es != [] {
      var init, last := es[..|es| - 1], es[|es| - 1];
      assert last in es;
      RunStaysWithin(init, lo, hi);
      if last.Measured? {
        SampleKeepsWithin(Apply(INITIAL, init), last.rtt, lo, hi);
      }
    }
  }

  // ---- constant samples -------------------------------------------------

  ghost predicate ConstantRun(es: seq<Event>, rtt: nat) {
    forall e <- es :: e.Measured? ==> e.rtt == rtt
  }

  function Samples(es: seq<Event>): nat {
    if es == [] then 0
    else Samples(es[..|es| - 1]) + (if es[|es| - 1].Measured? then 1 else 0)
  }

  /** Both filters have reached the fixed band around the constant sample. */
  ghost predicate Settled(r: Rtt, rtt: nat) {
    r.measured && rtt - 14 <= r.srtt <= rtt && 0 <= r.rttvar <= 12
  }

  /** How far the smoothed value is from its band. */
  function Gap(r: Rtt, rtt: nat): nat {
    if r.srtt > rtt then r.srtt - rtt
    else if r.srtt < rtt - 14 then rtt - 14 - r.srtt
    else 0
  }

  /** A ceiling on the variance while `rtt` is the only sample. */
  function Ceiling(r: Rtt, rtt: nat): nat {
    if r.measured then Max(Max(r.rttvar, Abs(r.srtt - rtt) + 14), 0) else rtt / 2 + 14
  }

  /** Samples still needed before the estimator settles, given a ceiling on the variance. */
  function Rank(r: Rtt, rtt: nat, ceiling: nat): nat {
    if !r.measured then ceiling + 1
    else if Gap(r, rtt) > 0 then Gap(r, rtt) + ceiling
    else Max(r.rttvar - 12, 0)
  }

  function SettlingTime(r: Rtt, rtt: nat): nat {
    Rank(r, rtt, Ceiling(r, rtt))
  }

  ghost predicate Sane(r: Rtt) {
    r.measured ==> r.srtt >= 0 && r.rttvar >= 0
  }

  ghost predicate Below(r: Rtt, rtt: nat, ceiling: nat) {
    && Sane(r)
    && 14 <= ceiling
    && (!r.measured ==> rtt / 2 <= ceiling)
    && (r.measured ==> r.rttvar <= ceiling && Abs(r.srtt - rtt) <= ceiling)
  }

  lemma SampleLowersRank(r: Rtt, rtt: nat, ceiling: nat)
    requires Below(r, rtt, ceiling)
    ensures Below(Sample(r, rtt), rtt, ceiling)
    ensures Rank(Sample(r, rtt), rtt, ceiling) <= Max(Rank(r, rtt, ceiling) - 1, 0)
  {
    if r.measured {
      var s := Sample(r, rtt);
      if r.srtt > rtt {
        assert s.srtt < r.srtt && rtt - 14 <= s.srtt;
      } else if r.srtt < rtt - 14 {
        assert r.srtt < s.srtt <= rtt;
      }
    }
  }

  lemma {:induction false} RankAfter(r: Rtt, es: seq<Event>, rtt: nat, ceiling: nat)
    requires Below(r, rtt, ceiling) && ConstantRun(es, rtt)
    ensures Below(Apply(r, es), rtt, ceiling)
    ensures Rank(Apply(r, es), rtt, ceiling) <= Max(Rank(r, rtt, ceiling) - Samples(es), 0)
  {
    if es != [] {
      var init, last := es[..|es| - 1], es[|es| - 1];
      assert last in es;
      RankAfter(r, init, rtt, ceiling);
      if last.Measured? {
        SampleLowersRank(Apply(r, init), rtt, ceiling);
      }
    }
  }

  /** A settled estimator stays settled, and the timeout it computes is in the band. */
  lemma SettledStays(r: Rtt, rtt: nat)
    requires Settled(r, rtt)
    ensures var next := Sample(r, rtt);
            && Settled(next, rtt)
            && Clamp(MIN_RTO, MAX_RTO, rtt - 14) <= next.rto <= Clamp(MIN_RTO, MAX_RTO, rtt + 48)
  {
    var next := Sample(r, rtt);
    assert rtt - 14 <= next.srtt + 4 * next.rttvar <= rtt + 48;
  }

  /**
   From any state, once SettlingTime samples of the same value have arrived
   (timeouts may be interleaved), the estimator has settled and every further
   sample leaves the timeout within the clamp of [rtt - 14, rtt + 48].
   */
  lemma ConstantSampleSettles(r: Rtt, es: seq<Event>, rtt: nat)
    requires Sane(r) && ConstantRun(es, rtt)
    requires Samples(es) >= SettlingTime(r, rtt)
    ensures Settled(Apply(r, es), rtt)
    ensures var next := Sample(Apply(r, es), rtt);
            && Settled(next, rtt)
            && Clamp(MIN_RTO, MAX_RTO, rtt - 14) <= next.rto <= Clamp(MIN_RTO, MAX_RTO, rtt + 48)
  {
    RankAfter(r, es, rtt, Ceiling(r, rtt));
    SettledStays(Apply(r, es), rtt);
  }

  // ---- what the two filters compute ---------------------------------------

  /** The samples of a run, in order. */
  function Sampled(es: seq<Event>): seq<nat> {
    if es == [] then []
    else Sampled(es[..|es| - 1]) + (if es[|es| - 1].Measured? then [es[|es| - 1].rtt] else [])
  }

  /** The exact moving average of section 2 of RFC 6298, with gain 1/8. */
  function Average(samples: seq<nat>): real
    requires samples != []
  {
    var last := samples[|samples| - 1] as real;
    if |samples| == 1 then last else 0.875 * Average(samples[..|samples| - 1]) + 0.125 * last
  }

  /** The exact moving deviation, with gain 1/4, of the samples from the smoothed value of their time. */
  function Deviation(es: seq<Event>): real
    requires Sampled(es) != []
  {
    var init, e := es[..|es| - 1], es[|es| - 1];
    if e.TimedOut? then Deviation(init)
    else if Sampled(init) == [] then e.rtt as real / 2.0
    else 0.75 * Deviation(init) + 0.25 * Abs(Apply(INITIAL, es).srtt - e.rtt) as real
  }

  lemma AverageOneMore(samples: seq<nat>, rtt: nat)
    ensures Average(samples + [rtt]) ==
            if samples == [] then rtt as real else 0.875 * Average(samples) + 0.125 * rtt as real
  {
    assert (samples + [rtt])[..|samples|] == samples;
  }

  lemma SampleFollows(r: Rtt, rtt: nat)
    requires r.measured && r.srtt >= 0 && r.rttvar >= 0
    ensures var s := Sample(r, rtt);
            && 0.875 * r.srtt as real + 0.125 * rtt as real - 1.75 <= s.srtt as real
            && s.srtt as real <= 0.875 * r.srtt as real + 0.125 * rtt as real
            && 0.75 * r.rttvar as real + 0.25 * Abs(s.srtt - rtt) as real - 1.5 <= s.rttvar as real
            && s.rttvar as real <= 0.75 * r.rttvar as real + 0.25 * Abs(s.srtt - rtt) as real
            && s.srtt >= 0 && s.rttvar >= 0
  {
    var s := Sample(r, rtt);
    assert 7 * r.srtt - 7 <= 8 * (r.srtt * 7 / 8) <= 7 * r.srtt && rtt - 7 <= 8 * (rtt / 8) <= rtt;
    assert 3 * r.rttvar - 3 <= 4 * (r.rttvar * 3 / 4) <= 3 * r.rttvar;
  }

  lemma {:induction false} RunIsSane(es: seq<Event>)
    ensures var r := Apply(INITIAL, es);
            (r.measured <==> Sampled(es) != []) && r.srtt >= 0 && r.rttvar >= 0
  {
    if es != [] {
      var init, e := es[..|es| - 1], es[|es| - 1];
      RunIsSane(init);
      if e.Measured? && Apply(INITIAL, init).measured {
        SampleFollows(Apply(INITIAL, init), e.rtt);
      }
    }
  }

  ghost predicate NearAverage(r: Rtt, samples: seq<nat>)
    requires samples != []
  {
    Average(samples) - 14.0 <= r.srtt as real <= Average(samples)
  }

  lemma SampleNearAverage(r: Rtt, samples: seq<nat>, rtt: nat)
    requires (r.measured <==> samples != []) && r.srtt >= 0 && r.rttvar >= 0
    requires samples != [] ==> NearAverage(r, samples)
    ensures NearAverage(Sample(r, rtt), samples + [rtt])
  {
    AverageOneMore(samples, rtt);
    if r.measured {
      SampleFollows(r, rtt);
    }
  }

  /** In every run the smoothed round trip is the exact average of the samples, at most 14 ns below it. */
  lemma {:induction false} RunIsAverage(es: seq<Event>)
    ensures var r := Apply(INITIAL, es);
            && (r.measured <==> Sampled(es) != [])
            && (r.measured ==> Average(Sampled(es)) - 14.0 <= r.srtt as real <= Average(Sampled(es)))
  {
    RunIsSane(es);
    if es != [] {
      var init, e := es[..|es| - 1], es[|es| - 1];
      RunIsSane(init);
      RunIsAverage(init);
      if e.Measured? {
        SampleNearAverage(Apply(INITIAL, init), Sampled(init), e.rtt);
        assert Sampled(es) == Sampled(init) + [e.rtt] && Apply(INITIAL, es) == Sample(Apply(INITIAL, init), e.rtt);
        assert NearAverage(Apply(INITIAL, es), Sampled(es));
      } else {
        assert Sampled(es) == Sampled(init) + [] == Sampled(init);
      }
    }
  }

  lemma SampleNearDeviation(r: Rtt, rtt: nat, deviation: real)
    requires r.srtt >= 0 && r.rttvar >= 0 && (r.measured ==> deviation - 6.0 <= r.rttvar as real <= deviation)
    ensures var s := Sample(r, rtt);
            var d := if r.measured then 0.75 * deviation + 0.25 * Abs(s.srtt - rtt) as real else rtt as real / 2.0;
            d - 6.0 <= s.rttvar as real <= d
  {
    if r.measured {
      SampleFollows(r, rtt);
    }
  }

  /** And the variance is the exact deviation, at most 6 ns below it. */
  lemma {:induction false} RunIsDeviation(es: seq<Event>)
    requires Sampled(es) != []
    ensures Deviation(es) - 6.0 <= Apply(INITIAL, es).rttvar as real <= Deviation(es)
  {
    var init, e := es[..|es| - 1], es[|es| - 1];
    RunIsSane(init);
    if Sampled(init) != [] {
      RunIsDeviation(init);
    }
    if e.Measured? {
      SampleNearDeviation(Apply(INITIAL, init), e.rtt, if Sampled(init) != [] then Deviation(init) else 0.0);
    }
  }

  function Timeouts(k: nat): seq<Event> {
    seq(k, _ => TimedOut)
  }

  /**
   The timeout is the smoothed round trip and four times the variance, at least
   10 ms, doubled by every timeout since the last sample, at most 5 seconds.
   */
  lemma {:induction false} TimeoutDoubles(es: seq<Event>, rtt: nat, k: nat)
    ensures var r := Apply(INITIAL, es + [Measured(rtt)]);
            var base := Max(r.srtt + 4 * r.rttvar, 10_000_000);
            Apply(r, Timeouts(k)) == r.(rto := Min(base * Power2(k), 5_000_000_000))
  {
    var r := Apply(INITIAL, es + [Measured(rtt)]);
    assert (es + [Measured(rtt)])[..|es|] == es;
    var base := Max(r.srtt + 4 * r.rttvar, 10_000_000);
    if k == 0 {
      assert base * Power2(0) == base;
    } else {
      TimeoutDoubles(es, rtt, k - 1);
      assert Timeouts(k)[..k - 1] == Timeouts(k - 1);
      Doubles(base, Power2(k - 1));
    }
  }

  lemma Doubles(base: nat, power: nat)
    ensures base * (2 * power) == 2 * (base * power)
    ensures Min(Min(base * power, 5_000_000_000) * 2, 5_000_000_000) == Min(2 * (base * power), 5_000_000_000)
  {
  }

  /** Before the first sample it is 100 ms, doubled likewise. */
  lemma {:induction false} FirstTimeoutDoubles(k: nat)
    ensures Apply(INITIAL, Timeouts(k)).rto == Min(100_000_000 * Power2(k), 5_000_000_000)
  {
    if k > 0 {
      FirstTimeoutDoubles(k - 1);
      assert Timeouts(k)[..k - 1] == Timeouts(k - 1);
      Doubles(100_000_000, Power2(k - 1));
    }
  }
}
