/** What an accepted form guarantees to the metrics engine and the chart generator. */
module Submission {
  import opened Wrappers
  import opened Profile
  import opened Form
  import Metrics
  import Charts

  /** A profile the form accepted at `submitNowMs`, evaluated no earlier, has lived
      a non-negative number of days: every count is non-negative, every
      life-distribution bucket is non-negative and the carbon trend exists. */
  lemma AcceptedProfileHasValidMetrics(f: FormState, submitNowMs: int, calcNowMs: int, birthMs: int,
                                       parseDate: string -> Option<int>, parseNumber: string -> real)
    requires HandleSubmit(f, submitNowMs, parseDate, parseNumber).submitted.Some?
    requires parseDate(f.birthdate) == Some(birthMs)
    requires submitNowMs <= calcNowMs
    ensures var u := HandleSubmit(f, submitNowMs, parseDate, parseNumber).submitted.value;
      var m := Metrics.CalculateSimpleMetrics(u, birthMs, calcNowMs);
      && m.daysLived >= 0
      && m.breathsTaken >= 0 && m.hoursSlept >= 0 && m.mealsConsumed >= 0
      && m.heartbeats >= 0 && m.distanceWalked >= 0 && m.galacticDistance >= 0
      && (forall k :: 0 <= k < 5 ==> Charts.LifeDistribution(m.daysLived)[k].value >= 0)
      && Charts.CarbonTrend(m.daysLived, u.diet).Some?
  {
    var u := HandleSubmit(f, submitNowMs, parseDate, parseNumber).submitted.value;
    assert birthMs <= submitNowMs;
    var m := Metrics.CalculateSimpleMetrics(u, birthMs, calcNowMs);
    Metrics.CountsNonNegative(u, m.daysLived);
    Charts.OtherBucketBounds(m.daysLived);
  }
}
