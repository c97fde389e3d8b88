# DaysOnEarth life-metrics engine in Dafny

This project models the deterministic part of the DaysOnEarth "life statistics"
web application. A user enters a birthdate, country, height, weight, gender,
activity level and diet. The application turns the elapsed time since birth into
a record of counts: days lived, breaths, hours slept, meals, heartbeats, distance
walked, calories burned, distance travelled around the galaxy and moon orbits.
It also builds two chart datasets:

- the life-hours distribution, five buckets that add up to the hours lived;
- the cumulative carbon trend, sampled at about five ages, with a corrective
  last point at the true age.

The form's submit handler is the gate in front of the engine. It rejects
incomplete forms and birthdates in the future.

Modules, one per part of the source:

- `Profile` (`profile.dfy`): the enumerations and the submitted profile of `types.ts`.
- `Metrics` (`metrics.dfy`): `calculateSimpleMetrics`, as a function of the lifetime in days.
- `Charts` (`charts.dfy`): `generateChartData`. It holds the life distribution, the carbon
  trend as a recursive reference definition, and the source's for-loop as a method
  proved equal to that definition.
- `Decimal` (`decimal.dfy`): how `${n}` prints an integer. The trend labels are
  compared as strings, and this module proves that the comparison is a comparison of ages.
- `Form` (`form.dfy`): `handleSubmit`, as a pure function from the form state to the
  new form state and the profile handed on, if any.
- `Submission` (`submission.dfy`): what an accepted form guarantees the engine.
- `Wrappers` (`wrappers.dfy`): `Option`.

Numbers are exact: integers are unbounded and fractional values are rationals (`real`).
JavaScript's `Math.floor` is `.Floor`, and `Math.round(x)` is `(x + 0.5).Floor`.

Behaviour of the code worth knowing:

- At zero days the calories are `floor(0 · dailyCalories) = 0`, whatever the BMR (`Metrics.ZeroDays`).
- Calories can be negative and can fall as days grow. Nothing bounds height or
  weight (`Metrics.CaloriesNeitherNonNegativeNorMonotone`).
- The carbon trend's values are not always non-decreasing. The corrective last
  point is a straight-line estimate and can fall below the running total before it
  (`Charts.CorrectivePointMayDrop`). The loop points themselves strictly increase.
- For age 4 the loop already ends at "Age 4", so no corrective point is appended.
  The last value is the running total 7, not `round(4 · 2.25) = 9` (`Charts.FourYearVeganTrend`).

## Model

| member | source | states |
|---|---|---|
| `Metrics.ElapsedDays` | App.tsx:25-26 | days lived is the floor of the elapsed milliseconds over one day's milliseconds, also for a negative span; it is non-negative exactly when the span is |
| `Metrics.AgeInYears` | App.tsx:27 | the fractional age, days lived divided by 365.25 |
| `Metrics.ActivityMultiplier` | App.tsx:30-32 | sedentary 1.2 (the default), moderate 1.55, active 1.9; always within [1.2, 1.9] |
| `Metrics.AverageHeartRate` | App.tsx:42-44 | moderate 75 bpm (the default), active 60, sedentary 80; always within [60, 80] |
| `Metrics.DailyDistanceKm` | App.tsx:47-49 | sedentary 3 km (the default), moderate 6, active 10; always within [3, 10] |
| `Metrics.ActivityLevelsOrdered` | App.tsx:30-49 | a more active level has a larger multiplier, a longer daily distance and a lower heart rate |
| `Metrics.GenderOffset` | App.tsx:36-37 | +5 exactly for male; every other gender, "other" included, takes −161 |
| `Metrics.Bmr` | App.tsx:35-37 | Mifflin-St Jeor: 10·weight + 6.25·height − 5·(d/365.25) plus the gender offset |
| `Metrics.BmrAgeing` | App.tsx:35 | every extra day of age lowers the BMR by 5/365.25 kcal, whatever the profile |
| `Metrics.BmrGenderGap` | App.tsx:36-37 | a male BMR exceeds the same profile's non-male BMR by exactly 166 kcal |
| `Metrics.DailyCalories` | App.tsx:39 | the BMR times the activity multiplier |
| `Metrics.MetricsForDays` | App.tsx:27-70 | breaths = 23040·d, hours slept = floor(7.5·d), meals = 3·d, heartbeats = 1440·rate·d, distance = km·d, galactic km = 19 008 000·d, moon orbits · 27.32 = d, calories = floor(d · BMR · activity multiplier) |
| `Metrics.CalculateSimpleMetrics` | App.tsx:22-27 | the record for a birth and a "now" timestamp: days lived is the floored elapsed days, non-negative exactly when birth is not after now |
| `Metrics.HeartbeatsExact` | App.tsx:64 | floor(d·24·60·rate) is exactly 1440·rate·d |
| `Metrics.DistanceExact` | App.tsx:65 | floor(d·km) is exactly km·d |
| `Metrics.CountsNonNegative` | App.tsx:59-69 | for d ≥ 0, breaths, sleep, meals, heartbeats, distance, galactic distance and moon orbits are all ≥ 0 |
| `Metrics.CountsMonotone` | App.tsx:59-69 | each of those fields is non-decreasing in the days lived, other inputs fixed |
| `Metrics.ZeroDays` | App.tsx:59-69 | zero days gives zero in every field, calories included |
| `Metrics.HundredYears` | App.tsx:61-63 | 36525 days: 841 536 000 breaths, 273 937 hours slept, 109 575 meals |
| `Metrics.CaloriesNeitherNonNegativeNorMonotone` | App.tsx:30-66 | a zero-weight, zero-height profile burns negative calories, fewer after 2 days than after 1 |
| `Charts.Round` | App.tsx:112 | Math.round gives the integer within half of x, halves rounded up |
| `Charts.FloorShare` | App.tsx:77-80 | Math.floor of hours times a share: the integer n with n ≤ h·share < n + 1 |
| `Charts.LifeDistribution` | App.tsx:75-89 | five points labelled Sleeping, Work/School, Digital/Screens, Eating, Other in that order; the first four are floor(h·33%), floor(h·25%), floor(h·20%), floor(h·8%); the five add up to exactly 24·d |
| `Charts.OtherBucketBounds` | App.tsx:77-81 | "Other" lies in [0.14·h, 0.14·h + 4); for d ≥ 0 every bucket is ≥ 0 |
| `Charts.AnnualCarbon` | App.tsx:93-96 | 4.5 t/year scaled once by the diet: vegan ·0.5, vegetarian ·0.7, omnivore ·1.2; always within [2.25, 5.4] |
| `Charts.DietsOrdered` | App.tsx:93-96 | vegan emits less than vegetarian, which emits less than omnivore |
| `Charts.StageMultiplier` | App.tsx:108 | 0.6 for a loop age under 18, 1.0 from 18 on; always within [0.6, 1.0] |
| `Charts.Increment` | App.tsx:108-109 | what one loop step adds: annual emission · step · stage multiplier of the loop age |
| `Charts.AgeLabel` | App.tsx:111 | `Age ` followed by the decimal text of the age, as both template literals at lines 111 and 116 build it |
| `Charts.TrendPoint` | App.tsx:110-113 | the pushed point: label "Age i", value Math.round of the running total, no colour |
| `Charts.WholeYears` | App.tsx:98 | floor(d/365.25) equals (4·d) div 1461 and is ≥ 0 exactly when d is |
| `Charts.WholeYearsExact` | App.tsx:98 | the real floor of d/365.25 is the integer quotient (4·d) div 1461 |
| `Charts.StepSize` | App.tsx:103-104 | the sampling step max(1, floor(age/5)) is at least 1, so the loop advances |
| `Charts.LoopPoints` | App.tsx:106-114 | the loop emits nothing exactly when its start age is past the age |
| `Charts.CompleteTrend` | App.tsx:115-118 | the post-loop step fails exactly on an empty trend (reading the label of a missing last point) |
| `Charts.CarbonTrend` | App.tsx:91-120 | the trend fails exactly for a negative lifetime |
| `Charts.LoopBound` | App.tsx:106 | the k-th sampled age k·step satisfies the loop condition exactly when k < floor(age/step) + 1 |
| `Charts.SampledAgeIsProduct` | App.tsx:106 | after k steps of `i += stepSize` the loop age is k·step |
| `Charts.SampledAgeIncreasing` | App.tsx:106 | the loop ages strictly increase with the step count |
| `Charts.LoopPointsFromLength` | App.tsx:106 | entered at step k, the loop emits floor(age/step) + 1 − k more points |
| `Charts.LoopPointsFrom` | App.tsx:106-114 | entered at step k, the loop's j-th point is LoopPoint(k + j) whenever age (k+j)·step is within the age |
| `Charts.LoopPointsLength` | App.tsx:106 | the loop emits floor(age/step) + 1 points for age ≥ 0, none otherwise |
| `Charts.LoopPointsAt` | App.tsx:106-114 | the j-th emitted point is labelled with age j·step and valued at the rounded running total after j+1 steps |
| `Charts.IncrementScales` | App.tsx:109 | one step's increment is the annual emission times a diet-independent factor |
| `Charts.AnnualCarbonAppliedOnce` | App.tsx:93-96 | the running total is the diet-scaled annual emission times a diet-independent total: the diet factor is applied once, not per step |
| `Charts.RunningTotalIncreasing` | App.tsx:108-109 | every step adds more than one tonne for every diet and step (at least 2.25·0.6), so the running total strictly increases |
| `Charts.TrendAgesOrdered` | App.tsx:104-118 | the sampled ages start at 0, end at the age, stay in [0, age] and strictly increase |
| `Charts.CompleteTrendShape` | App.tsx:116-118 | the corrective point is appended exactly when the last loop age differs from the age |
| `Charts.AgeLabelInjective` | App.tsx:111 | "Age a" equals "Age b" exactly when a = b |
| `Charts.CompletedLoopForm` | App.tsx:115-118 | after the loop the trend is the loop points, plus the corrective point exactly when (n−1)·step ≠ age |
| `Charts.CarbonTrendForm` | App.tsx:98-118 | for d ≥ 0 the trend is the n ≥ 1 loop points, followed by a point at the true age valued round(years·annual) exactly when the last sampled age is not the age |
| `Charts.CarbonTrendLabels` | App.tsx:106-118 | for d ≥ 0 the trend exists and its j-th label is "Age" followed by the j-th of the ordered sampled ages, so it begins at Age 0 and ends at Age {age} |
| `Charts.CarbonTrendEndpoints` | App.tsx:106-118 | for d ≥ 0 the trend exists, is non-empty, starts at "Age 0" and ends at "Age {age}" |
| `Charts.LoopValuesIncreasing` | App.tsx:106-114 | every loop value is the rounded running total after j+1 steps, at least 1, and the loop values strictly increase |
| `Charts.CompletedLoopValues` | App.tsx:106-118 | after the post-loop step the loop values are unchanged, a corrective value is the rounded estimate, and all values are ≥ 0 when the estimate is |
| `Charts.EstimateNonNegative` | App.tsx:117 | for d ≥ 0 the straight-line estimate d/365.25 · annual is ≥ 0 |
| `Charts.CarbonTrendValues` | App.tsx:106-118 | loop values are the rounded running totals, strictly increasing and ≥ 0; a corrective value is round(d/365.25·annual), independent of the running total |
| `Charts.LoopCountAtMostTen` | App.tsx:102-106 | the loop samples between 1 and 10 ages at any age |
| `Charts.FourYearVeganTrend` | App.tsx:93-118 | 1461 days, vegan: Age 0…Age 4 with values 1, 3, 4, 5, 7 and no corrective point |
| `Charts.RunningTotalChildhood` | App.tsx:106-109 | with step 1, after k ≤ 18 steps the running total is 0.6·annual·k |
| `Charts.VeganAgeNineTrend` | App.tsx:93-114 | 3288 days, vegan: ten points, the last "Age 9" valued round(13.5) = 14 |
| `Charts.CorrectivePointMayDrop` | App.tsx:106-118 | 36160 days (age 99), omnivore: the loop ends at "Age 95" with 575, then "Age 99" holds 535 < 575 |
| `Charts.SampleTrend` | App.tsx:99-114 | the imperative for-loop computes exactly the recursive loop definition |
| `Charts.GenerateCarbonTrend` | App.tsx:91-120 | the imperative carbon half of generateChartData computes exactly CarbonTrend |
| `Decimal.NatToString` | App.tsx:111 | the decimal text of n is non-empty, starts with a digit, and has no leading zero |
| `Decimal.NatToStringAllDigits` | App.tsx:111 | every character of the decimal text is a digit |
| `Decimal.IntToString` | App.tsx:117 | the text of an integer starts with '-' exactly when it is negative |
| `Decimal.NatToStringRoundTrip` | App.tsx:111 | reading back the printed digits gives n |
| `Decimal.IntToStringRoundTrip` | App.tsx:111 | reading back the printed text of any integer, sign included, gives the integer |
| `Decimal.IntToStringInjective` | App.tsx:116 | two integers print alike exactly when they are equal |
| `Form.HandleSubmit` | components/UserInputForm.tsx:20-43 | only the error changes; the missing-fields error exactly when a text input is empty; the future error exactly when all are filled and the birthdate parses to a time after now; otherwise no error and the profile carries the fields unchanged, with height and weight parsed |
| `Form.HasEmptyField` | components/UserInputForm.tsx:24 | some text input (birthdate, country, height, weight) is empty; the three selections always hold a value |
| `Form.IsFutureBirthdate` | components/UserInputForm.tsx:29 | the birthdate parses to a time strictly after now; an Invalid Date is never in the future |
| `Form.InvalidDateAccepted` | components/UserInputForm.tsx:24-42 | a complete form whose birthdate is an Invalid Date is accepted and hands on the unparseable text |
| `Form.InitialForm` | components/UserInputForm.tsx:11-18 | the useState defaults: empty text inputs, male, moderate activity, omnivore, no error |
| `Form.InitialFormRejected` | components/UserInputForm.tsx:11-27 | submitting the untouched form (male, moderate, omnivore, empty inputs) yields the missing-fields error and no profile |
| `Form.PreviousErrorIrrelevant` | components/UserInputForm.tsx:22 | the outcome of a submit does not depend on the error shown before it |
| `Form.AcceptanceIgnoresParsedNumbers` | components/UserInputForm.tsx:24-38 | acceptance does not depend on what height and weight parse to: sign and range are never checked |
| `Form.AcceptedBirthdateNotInFuture` | components/UserInputForm.tsx:29-32 | a complete form with a parseable birthdate is accepted exactly when the birthdate is at or before now, equality included |
| `Submission.AcceptedProfileHasValidMetrics` | components/UserInputForm.tsx:29-42 | an accepted profile whose birthdate parses, evaluated no earlier than its submit, has d ≥ 0, non-negative counts and buckets, and a carbon trend |

## Left out

- `treesForOxygen` (App.tsx:67) is not modelled. It is a `toFixed(2)` string round-trip of a double.
- IEEE double rounding is not modelled anywhere. Shares such as 0.33, emission factors such as
  0.7 and 1.2, the BMR and `moonOrbits` are exact rationals here. Rounded trend values and
  floored calories can therefore be off by one at ordinary inputs, not only at extreme ones:
  - Vegan, 3288 days (age 9, step 1): ten double additions of 2.25·0.6 give 13.499999999999998.
    `Math.round` makes that 13 at "Age 9", where the model gives 14 (`Charts.VeganAgeNineTrend`).
  - Vegan, ages 10 and 11 (step 2): the fifth point is 13 in doubles and 14 in the model.
  - A 40 kg, 150 cm, male, sedentary profile after 6331 days: the calories floor to 9540816
    in doubles and to 9540817 exactly.
- `Date` parsing, time zones and `new Date()` are not modelled. The engine takes the
  birth and "now" timestamps in milliseconds. The form takes `parseDate`, returning a
  timestamp or `None` for an Invalid Date.
- `parseFloat` is not modelled and is passed in as `parseNumber`. A NaN height or weight
  cannot be represented as a `real`. The engine is modelled only on numeric inputs.
- `Metrics.CalculateSimpleMetrics` takes an integer birth timestamp, so the NaN results of
  an Invalid Date that passed the form are not modelled. The form does let such a date through.
- The `handleCalculate` and `handleFindNearbySites` orchestration (App.tsx:123-193) is not
  modelled. It consists of React state setters, `Promise.all` and geolocation callbacks.
- The AI service wrappers in `services/geminiService.ts` and the chat widget are not modelled.
- Presentation is not modelled: charts, cards, the footer, the ad and premium modals, and the locked-feature gate.
- Chart colours are carried as the source's literal hex strings and have no other meaning.
  The source's `label` field is called `name`, because `label` is a Dafny keyword.
