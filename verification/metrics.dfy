/** The life-metrics engine (calculateSimpleMetrics in App.tsx): a profile and the
    elapsed time since birth mapped to a record of counts.

    Arithmetic is over exact integers and rationals. The source computes in IEEE
    doubles, so a floored result near an integer can differ by a whole unit: for
    a 40 kg, 150 cm sedentary man after 6331 days the exact calories are 9540817,
    while the double computation floors to 9540816. */
module Metrics {
  import opened Profile

  const MsPerDay: int := 1000 * 60 * 60 * 24
  const DaysPerYear: real := 365.25
  const BreathsPerDay: int := 23040
  const SleepHoursPerDay: real := 7.5
  const MealsPerDay: int := 3
  const GalacticSpeedKmPerSec: int := 220
  const MoonOrbitalPeriodDays: real := 27.32

  /** Whole days in an elapsed time, rounded down (Math.floor), also for a negative span. */
  function ElapsedDays(ms: int): (d: int)
    ensures d * MsPerDay <= ms < (d + 1) * MsPerDay
    ensures d >= 0 <==> ms >= 0
  {
    ((ms as real) / (MsPerDay as real)).Floor
  }

  /** Fractional age in years of a lifetime of `days` days. */
  function AgeInYears(days: int): real {
    days as real / DaysPerYear
  }

  /** Daily energy use relative to the BMR; sedentary is the default. */
  function ActivityMultiplier(a: ActivityLevel): (m: real)
    ensures 1.2 <= m <= 1.9
  {
    match a
    case Sedentary => 1.2
    case Moderate => 1.55
    case Active => 1.9
  }

  /** Average heart rate in beats per minute: lower for active people. */
  function AverageHeartRate(a: ActivityLevel): (bpm: nat)
    ensures 60 <= bpm <= 80
  {
    match a
    case Active => 60
    case Sedentary => 80
    case Moderate => 75
  }

  /** Estimated walking distance in kilometres per day. */
  function DailyDistanceKm(a: ActivityLevel): (km: nat)
    ensures 3 <= km <= 10
  {
    match a
    case Active => 10
    case Moderate => 6
    case Sedentary => 3
  }

  /** The Mifflin-St Jeor sex constant; every gender other than male takes the female one. */
  function GenderOffset(g: Gender): (c: real)
    ensures c == 5.0 || c == -161.0
    ensures c == 5.0 <==> g == Male
  {
    if g == Male then 5.0 else -161.0
  }

  /** Basal metabolic rate (Mifflin-St Jeor) in kcal per day. */
  function Bmr(data: UserData, days: int): real {
    10.0 * data.weight + 6.25 * data.height - 5.0 * AgeInYears(days) + GenderOffset(data.gender)
  }

  function ActivityRank(a: ActivityLevel): nat {
    match a
    case Sedentary => 0
    case Moderate => 1
    case Active => 2
  }

  /** Sedentary < moderate < active orders all three activity tables: more
      energy, more distance, a lower resting heart rate. */
  lemma ActivityLevelsOrdered(a: ActivityLevel, b: ActivityLevel)
    requires ActivityRank(a) < ActivityRank(b)
    ensures ActivityMultiplier(a) < ActivityMultiplier(b)
    ensures DailyDistanceKm(a) < DailyDistanceKm(b)
    ensures AverageHeartRate(a) > AverageHeartRate(b)
  {
  }

  /** Each further day of age lowers the BMR by 5/365.25 kcal. */
  lemma BmrAgeing(data: UserData, d1: int, d2: int)
    ensures Bmr(data, d2) == Bmr(data, d1) - 5.0 * (d2 - d1) as real / DaysPerYear
  {
  }

  /** Male and any other gender differ by exactly 166 kcal, all else equal. */
  lemma BmrGenderGap(data: UserData, days: int, g: Gender)
    requires g != Male
    ensures Bmr(data.(gender := Male), days) - Bmr(data.(gender := g), days) == 166.0
  {
  }

  function DailyCalories(data: UserData, days: int): real {
    Bmr(data, days) * ActivityMultiplier(data.activityLevel)
  }

  /** The deterministic statistics; treesForOxygen is not part of this model. */
  datatype SimpleMetrics = SimpleMetrics(
    daysLived: int,
    breathsTaken: int,
    hoursSlept: int,
    mealsConsumed: int,
    heartbeats: int,
    distanceWalked: int,
    caloriesBurned: int,
    galacticDistance: int,
    moonOrbits: real)

  /** The record for a lifetime of `days` whole days. Every count is an exact
      integer multiple of `days` (hours slept a floored half-multiple), and the
      calories are the floor of the days times the daily need. */
  function MetricsForDays(data: UserData, days: int): (m: SimpleMetrics)
    ensures m.daysLived == days
    ensures m.breathsTaken == 23040 * days
    ensures m.hoursSlept == (15 * days) / 2
    ensures m.mealsConsumed == 3 * days
    ensures m.heartbeats == 1440 * AverageHeartRate(data.activityLevel) * days
    ensures m.distanceWalked == DailyDistanceKm(data.activityLevel) * days
    ensures m.galacticDistance == 19008000 * days
    ensures m.moonOrbits * MoonOrbitalPeriodDays == days as real
    ensures m.caloriesBurned as real <= days as real * DailyCalories(data, days) < m.caloriesBurned as real + 1.0
  {
    var heartRate := AverageHeartRate(data.activityLevel);
    var distance := DailyDistanceKm(data.activityLevel);
    var secondsLived := days * 24 * 60 * 60;
    HeartbeatsExact(days, heartRate);
    DistanceExact(days, distance);
    SimpleMetrics(
      daysLived := days,
      breathsTaken := (days as real * (BreathsPerDay as real)).Floor,
      hoursSlept := (days as real * SleepHoursPerDay).Floor,
      mealsConsumed := days * MealsPerDay,
      heartbeats := (days as real * 24.0 * 60.0 * heartRate as real).Floor,
      distanceWalked := (days as real * distance as real).Floor,
      caloriesBurned := (days as real * DailyCalories(data, days)).Floor,
      galacticDistance := secondsLived * GalacticSpeedKmPerSec,
      moonOrbits := days as real / MoonOrbitalPeriodDays)
  }

  lemma HeartbeatsExact(days: int, heartRate: nat)
    ensures (days as real * 24.0 * 60.0 * heartRate as real).Floor == 1440 * heartRate * days
  {
    assert (1440 * heartRate * days) as real == days as real * 24.0 * 60.0 * heartRate as real;
  }

  lemma DistanceExact(days: int, distance: nat)
    ensures (days as real * distance as real).Floor == distance * days
  {
    assert (distance * days) as real == days as real * distance as real;
  }

  /** calculateSimpleMetrics: the record for the time elapsed from `birthMs` to `nowMs`. */
  function CalculateSimpleMetrics(data: UserData, birthMs: int, nowMs: int): (m: SimpleMetrics)
    ensures m.daysLived * MsPerDay <= nowMs - birthMs < (m.daysLived + 1) * MsPerDay
    ensures m.daysLived >= 0 <==> birthMs <= nowMs
  {
    MetricsForDays(data, ElapsedDays(nowMs - birthMs))
  }

  /** For a non-negative lifetime every count is non-negative. */
  lemma CountsNonNegative(data: UserData, days: int)
    requires days >= 0
    ensures var m := MetricsForDays(data, days);
      && m.breathsTaken >= 0 && m.hoursSlept >= 0 && m.mealsConsumed >= 0
      && m.heartbeats >= 0 && m.distanceWalked >= 0 && m.galacticDistance >= 0
      && m.moonOrbits >= 0.0
  {
    var hr := AverageHeartRate(data.activityLevel);
    assert 1440 * hr * days == (1440 * hr) * days;
  }

  /** Every count grows with the lifetime, the other inputs held fixed. */
  lemma CountsMonotone(data: UserData, d1: int, d2: int)
    requires d1 <= d2
    ensures var m1 := MetricsForDays(data, d1); var m2 := MetricsForDays(data, d2);
      && m1.breathsTaken <= m2.breathsTaken
      && m1.hoursSlept <= m2.hoursSlept
      && m1.mealsConsumed <= m2.mealsConsumed
      && m1.heartbeats <= m2.heartbeats
      && m1.distanceWalked <= m2.distanceWalked
      && m1.galacticDistance <= m2.galacticDistance
      && m1.moonOrbits <= m2.moonOrbits
  {
    var hr := AverageHeartRate(data.activityLevel);
    var dist := DailyDistanceKm(data.activityLevel);
    assert 1440 * hr * d2 - 1440 * hr * d1 == (1440 * hr) * (d2 - d1);
    assert dist * d2 - dist * d1 == dist * (d2 - d1);
  }

  /** A lifetime of zero days gives zero for every field, calories included. */
  lemma ZeroDays(data: UserData)
    ensures MetricsForDays(data, 0) == SimpleMetrics(0, 0, 0, 0, 0, 0, 0, 0, 0.0)
  {
  }

  /** The 100-year example: 36525 days. */
  lemma HundredYears(data: UserData)
    ensures var m := MetricsForDays(data, 36525);
      m.breathsTaken == 841536000 && m.hoursSlept == 273937 && m.mealsConsumed == 109575
  {
  }

  /** Nothing keeps the calories non-negative or growing: a profile with zero
      weight and height (which the form accepts) burns negative and shrinking totals. */
  lemma CaloriesNeitherNonNegativeNorMonotone()
    ensures var u := UserData("2000-01-01", "Nowhere", 0.0, 0.0, Female, Sedentary, Vegan);
      MetricsForDays(u, 1).caloriesBurned < 0
      && MetricsForDays(u, 2).caloriesBurned < MetricsForDays(u, 1).caloriesBurned
  {
  }
}
