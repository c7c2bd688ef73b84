/** From memory samples to a leak verdict, phase by phase. */
module LeakVerdict {
  import opened Reals
  import opened LeastSquares

  datatype Phase = Setup | Seed | Settle | Monitor | Cooldown

  datatype RssSample = RssSample(elapsedMs: real, rssKb: real, phase: Phase)

  datatype Verdict = Stable | SlowGrowth | Leaking | InsufficientData

  datatype PhaseStats = PhaseStats(slopeKbPerMin: int, mbPerMin: real, samples: nat, verdict: Verdict)

  const LEAK_THRESHOLD_MB_PER_MIN := 1.0

  function Classify(mbPerMin: real, sampleCount: nat): Verdict {
    if sampleCount < 4 then InsufficientData
    else if mbPerMin <= 0.25 then Stable
    else if mbPerMin < LEAK_THRESHOLD_MB_PER_MIN then SlowGrowth
    else Leaking
  }

  /** Math.round. */
  function Round(x: real): int {
    (x + 0.5).Floor
  }

  function OfPhase(samples: seq<RssSample>, phase: Phase): seq<RssSample> {
    if |samples| == 0 then []
    else
      var last := |samples| - 1;
      OfPhase(samples[..last], phase) + if samples[last].phase == phase then [samples[last]] else []
  }

  function Points(samples: seq<RssSample>): seq<Point> {
    seq(|samples|, i requires 0 <= i < |samples| => Point(samples[i].elapsedMs, samples[i].rssKb))
  }

  function SlopeFor(samples: seq<RssSample>, phase: Phase): PhaseStats {
    var ss := OfPhase(samples, phase);
    if |ss| < 2 then PhaseStats(0, 0.0, |ss|, Classify(0.0, |ss|))
    else
      var kbPerMin := Slope(Points(ss)) * 60000.0;
      var mbPerMin := kbPerMin / 1024.0;
      PhaseStats(Round(kbPerMin), Round(mbPerMin * 100.0) as real / 100.0, |ss|, Classify(mbPerMin, |ss|))
  }

  ghost predicate InTimeOrder(samples: seq<RssSample>) {
    forall i, j :: 0 <= i < j < |samples| ==> samples[i].elapsedMs <= samples[j].elapsedMs
  }

  ghost predicate NeverRises(samples: seq<RssSample>) {
    forall i, j :: 0 <= i < j < |samples| ==> samples[j].rssKb <= samples[i].rssKb
  }

  /** At least `mb` megabytes a minute between neighbouring samples. */
  ghost predicate RisesBy(samples: seq<RssSample>, mb: real) {
    forall i :: 0 <= i < |samples| - 1 ==> RiseAt(samples, i, mb)
  }

  ghost predicate RiseAt(samples: seq<RssSample>, i: nat, mb: real)
    requires i < |samples| - 1
  {
    samples[i + 1].rssKb - samples[i].rssKb
      >= Times(mb * 1024.0 / 60000.0, samples[i + 1].elapsedMs - samples[i].elapsedMs)
  }

  ghost predicate TwoDistinctTimes(samples: seq<RssSample>) {
    exists i, j :: 0 <= i < j < |samples| && samples[i].elapsedMs != samples[j].elapsedMs
  }

  lemma {:induction false} PhaseKeepsOrder(samples: seq<RssSample>, phase: Phase)
    requires InTimeOrder(samples)
    ensures InTimeOrder(OfPhase(samples, phase))
    ensures forall s :: s in OfPhase(samples, phase) ==> s in samples
  {
    if |samples| == 0 {
    } else {
      var init := samples[..|samples| - 1];
      PhaseKeepsOrder(init, phase);
      var kept := OfPhase(init, phase);
      forall i | 0 <= i < |kept|
        ensures kept[i].elapsedMs <= samples[|samples| - 1].elapsedMs
      {
        assert kept[i] in init;
      }
    }
  }

  /** Memory that never rises during a phase is never called growth, however irregular the
      sampling times. */
  lemma ReleaseIsNeverALeak(samples: seq<RssSample>, phase: Phase)
    requires InTimeOrder(samples) && NeverRises(OfPhase(samples, phase))
    ensures SlopeFor(samples, phase).verdict in {Stable, InsufficientData}
  {
    var ss := OfPhase(samples, phase);
    var ps := Points(ss);
    PhaseKeepsOrder(samples, phase);
    PointsFall(ss);
    hide Slope, RatesAtMost, InTimeOrder, NeverRises, Points, OfPhase;
    if SameX(ps) {
      SlopeOfSameX(ps);
    } else {
      SlopeAtMost(ps, 0.0);
    }
  }

  lemma PointsFall(ss: seq<RssSample>)
    requires InTimeOrder(ss) && NeverRises(ss)
    ensures RatesAtMost(Points(ss), 0.0)
  {
    hide Times;
    var ps := Points(ss);
    forall i | 0 <= i < |ss| - 1
      ensures RateAtMost(ps, i, 0.0)
    {
      TimesZero(0.0, ss[i + 1].elapsedMs - ss[i].elapsedMs);
    }
  }

  lemma PointsRise(ss: seq<RssSample>, mb: real)
    requires InTimeOrder(ss) && RisesBy(ss, mb) && TwoDistinctTimes(ss)
    ensures RatesAtLeast(Points(ss), mb * 1024.0 / 60000.0) && !SameX(Points(ss))
  {
    hide Times;
    var ps, lo := Points(ss), mb * 1024.0 / 60000.0;
    forall i | 0 <= i < |ss| - 1
      ensures RateAtLeast(ps, i, lo)
    {
      assert RiseAt(ss, i, mb);
    }
    var i, j :| 0 <= i < j < |ss| && ss[i].elapsedMs != ss[j].elapsedMs;
    assert ps[i].x != ps[j].x;
  }

  /** At least four samples at two distinct times that climb a megabyte a minute or more are always
      called a leak. */
  lemma SteadyGrowthIsALeak(samples: seq<RssSample>, phase: Phase)
    requires InTimeOrder(samples) && |OfPhase(samples, phase)| >= 4
    requires TwoDistinctTimes(OfPhase(samples, phase)) && RisesBy(OfPhase(samples, phase), 1.0)
    ensures SlopeFor(samples, phase).verdict == Leaking
  {
    var ss := OfPhase(samples, phase);
    var ps := Points(ss);
    PhaseKeepsOrder(samples, phase);
    PointsRise(ss, 1.0);
    hide Slope, RatesAtLeast, InTimeOrder, RisesBy, TwoDistinctTimes, SameX, Points, OfPhase, Round;
    SlopeAtLeast(ps, 1.0 * 1024.0 / 60000.0);
  }

  /** At most `mb` megabytes a minute between neighbouring samples. */
  ghost predicate RisesAtMost(samples: seq<RssSample>, mb: real) {
    forall i :: 0 <= i < |samples| - 1 ==> RiseAtMost(samples, i, mb)
  }

  ghost predicate RiseAtMost(samples: seq<RssSample>, i: nat, mb: real)
    requires i < |samples| - 1
  {
    samples[i + 1].rssKb - samples[i].rssKb
      <= Times(mb * 1024.0 / 60000.0, samples[i + 1].elapsedMs - samples[i].elapsedMs)
  }

  lemma PointsStayBelow(ss: seq<RssSample>, mb: real)
    requires InTimeOrder(ss) && RisesAtMost(ss, mb)
    ensures RatesAtMost(Points(ss), mb * 1024.0 / 60000.0)
  {
    hide Times;
    var ps, hi := Points(ss), mb * 1024.0 / 60000.0;
    forall i | 0 <= i < |ss| - 1
      ensures RateAtMost(ps, i, hi)
    {
      assert RiseAtMost(ss, i, mb);
    }
  }

  /** Four samples or more whose rates between neighbours all lie in one band get the verdict of that band: up
      to 0.25 MB a minute stable, above that and below 1 slow growth. */
  lemma VerdictInBand(samples: seq<RssSample>, phase: Phase, lo: real, hi: real)
    requires InTimeOrder(samples) && |OfPhase(samples, phase)| >= 4
    requires TwoDistinctTimes(OfPhase(samples, phase))
    requires RisesBy(OfPhase(samples, phase), lo) && RisesAtMost(OfPhase(samples, phase), hi)
    ensures hi <= 0.25 ==> SlopeFor(samples, phase).verdict == Stable
    ensures lo > 0.25 && hi < 1.0 ==> SlopeFor(samples, phase).verdict == SlowGrowth
  {
    var ss := OfPhase(samples, phase);
    PhaseKeepsOrder(samples, phase);
    PointsRise(ss, lo);
    PointsStayBelow(ss, hi);
    hide Slope, RatesAtLeast, RatesAtMost, InTimeOrder, RisesBy, RisesAtMost, TwoDistinctTimes, SameX, Points, OfPhase,
         Round;
    SlopeAtLeast(Points(ss), lo * 1024.0 / 60000.0);
    SlopeAtMost(Points(ss), hi * 1024.0 / 60000.0);
  }

  /** All samples lie on one line that climbs `mb` megabytes a minute. */
  ghost predicate ClimbsAt(samples: seq<RssSample>, mb: real, base: real) {
    forall i :: 0 <= i < |samples| ==>
      samples[i].rssKb == Times(mb * 1024.0 / 60000.0, samples[i].elapsedMs) + base
  }

  /** Memory that climbs at one rate: all four verdicts, exactly, and the reported rates are that rate to the
      nearest kilobyte and the nearest hundredth of a megabyte a minute. */
  lemma SteadyRateIff(samples: seq<RssSample>, phase: Phase, mb: real, base: real)
    requires ClimbsAt(OfPhase(samples, phase), mb, base) && TwoDistinctTimes(OfPhase(samples, phase))
    ensures var n, stats := |OfPhase(samples, phase)|, SlopeFor(samples, phase);
      && stats.samples == n
      && (stats.verdict == InsufficientData <==> n < 4)
      && (stats.verdict == Stable <==> n >= 4 && mb <= 0.25)
      && (stats.verdict == SlowGrowth <==> n >= 4 && 0.25 < mb < 1.0)
      && (stats.verdict == Leaking <==> n >= 4 && mb >= 1.0)
      && stats.slopeKbPerMin as real - 0.5 <= mb * 1024.0 < stats.slopeKbPerMin as real + 0.5
      && stats.mbPerMin - 0.005 <= mb < stats.mbPerMin + 0.005
  {
    hide Times, Slope, OfPhase;
    var ss := OfPhase(samples, phase);
    var m := mb * 1024.0 / 60000.0;
    var i, j :| 0 <= i < j < |ss| && ss[i].elapsedMs != ss[j].elapsedMs;
    assert Points(ss)[i].x != Points(ss)[j].x;
    CollinearSlope(Points(ss), m, base);
    assert m * 60000.0 == mb * 1024.0;
    assert m * 60000.0 / 1024.0 == mb;
  }

  lemma {:induction false} OfPhaseConcat(a: seq<RssSample>, b: seq<RssSample>, phase: Phase)
    ensures OfPhase(a + b, phase) == OfPhase(a, phase) + OfPhase(b, phase)
  {
    if |b| == 0 {
      assert a + b == a;
    } else {
      OfPhaseConcat(a, b[..|b| - 1], phase);
      assert (a + b)[..|a + b| - 1] == a + b[..|b| - 1];
    }
  }

  /** A sample taken in another phase changes nothing that is reported for this one. */
  lemma OtherPhasesDoNotCount(before: seq<RssSample>, other: RssSample, after: seq<RssSample>, phase: Phase)
    requires other.phase != phase
    ensures SlopeFor(before + [other] + after, phase) == SlopeFor(before + after, phase)
  {
    hide Slope, Classify, Round;
    OfPhaseConcat(before + [other], after, phase);
    OfPhaseConcat(before, [other], phase);
    OfPhaseConcat(before, after, phase);
    NothingOfPhase(other, phase);
    hide OfPhase;
    assert OfPhase(before, phase) + [] == OfPhase(before, phase);
  }

  lemma NothingOfPhase(other: RssSample, phase: Phase)
    requires other.phase != phase
    ensures OfPhase([other], phase) == []
  {
    assert [other][..0] == [];
  }

  /** And all those of this phase count. */
  lemma {:induction false} OwnPhaseCounts(samples: seq<RssSample>, phase: Phase)
    requires forall i :: 0 <= i < |samples| ==> samples[i].phase == phase
    ensures OfPhase(samples, phase) == samples
  {
    if |samples| == 0 {
    } else {
      OwnPhaseCounts(samples[..|samples| - 1], phase);
    }
  }

  function Delayed(samples: seq<RssSample>, dt: real): seq<RssSample> {
    seq(|samples|, i requires 0 <= i < |samples| => samples[i].(elapsedMs := samples[i].elapsedMs + dt))
  }

  lemma {:induction false} PhaseOfDelayed(samples: seq<RssSample>, phase: Phase, dt: real)
    ensures OfPhase(Delayed(samples, dt), phase) == Delayed(OfPhase(samples, phase), dt)
  {
    if |samples| == 0 {
    } else {
      PhaseOfDelayed(samples[..|samples| - 1], phase, dt);
      assert Delayed(samples, dt)[..|samples| - 1] == Delayed(samples[..|samples| - 1], dt);
    }
  }

  /** Starting the run's clock earlier or later changes nothing that is reported. */
  lemma VerdictIgnoresClockOffset(samples: seq<RssSample>, phase: Phase, dt: real)
    ensures SlopeFor(Delayed(samples, dt), phase) == SlopeFor(samples, phase)
  {
    var ss := OfPhase(samples, phase);
    PhaseOfDelayed(samples, phase, dt);
    hide Slope;
    SlopeOfAffine(Points(ss), dt, 1.0);
    assert Points(Delayed(ss, dt)) == Affine(Points(ss), dt, 1.0);
  }
}
