# Infant growth calculator: validation, age key and unit dispatch

This project models the integer-valued front half of a command-line calculator for infant growth percentiles (`baby.py`). The calculator takes an age in months plus days, a gender, and any of weight, length and head circumference. It reads the WHO reference table for each given measurement and reports the LMS percentile of that measurement.

The model covers:

- **Argument checks of `main`** (`Validation`). Gender, months, days, head, length and weight are checked in that order, and the first failing check ends the run. If all of them pass, days are folded into months: 31 days count as 30, 30 days become one more month with 0 days, and absent days mean 0. `Validate` is written as the source is, with early returns and months and days updated step by step. On success it returns the arguments with only months and days replaced.
- **The age key of `calc_value`** (`AgeNormalizer`, `Rounding`). The key is `round(months * 30.4375 + days)` capped at 1856. Because 30.4375 = 487/16, the age is the exact rational (487·months + 16·days)/16. Python's `round` rounds it to the nearest integer, with ties going to the even one. The model proves that this rounding is unique and monotone, and how it moves when one day is added.
- **The unit dispatch of `calc_value`** (`UnitDispatch`, `Calculator`). A weight is read in pounds or kilograms. A length or head circumference is read in inches or centimeters. Any other kind stops before a table row is read. Imperial values are multiplied by 0.45359237 or 2.54 (exact `real` arithmetic here). `CalcValue` gives everything the percentile formula receives: the table key, the converted value and the table row.
- **The rest of `main`** (`GrowthRun`). Each given measurement is worked out against the table for its indicator and the child's gender, in the order weight, length, head circumference. Head circumference uses the inches flag, as length does. A table with no row at the age key raises in the row lookup (baby.py:12); nothing catches it, so the run ends there and later measurements are not worked out. An unknown kind only ends its own call. The three near-identical blocks of `main` become one method, `ComputeOne`, called once per indicator. If every table has a row for each day 0..1856, every measurement reaches the formula with a tabulated age and a positive value.

The model makes one behaviour visible: round-half-to-even on half-day ages. When months ≡ 8 (mod 16), the age falls exactly on a half day. So 8 months 0 days and 8 months 1 day both give day 244, and day 245 is skipped (`AgeDayStep`, `HalfDayCollision`). The model follows the code here.

## Model

| member | source | states |
|---|---|---|
| `Rounding.RoundHalfEven` | baby.py:27 | the result is a nearest integer to num/den, and the even one when two are equally near; it is a tie exactly when num mod den is half of den |
| `Rounding.RoundHalfEvenUnique` | baby.py:27 | any integer meeting those two conditions is the rounded value, so the conditions define Python's `round` on exact rationals |
| `Rounding.RoundHalfEvenMonotone` | baby.py:27 | a larger argument never rounds to a smaller integer |
| `Rounding.RoundHalfEvenShift` | baby.py:27 | adding one unit adds exactly one to the rounded value, except on a tie, where the value moves by 0 or 2 |
| `AgeNormalizer.AgeInDays` | baby.py:27-30 | the table key is at most 1856; it is non-negative for non-negative months and days; below the cap it is the half-to-even rounding of (487·months + 16·days)/16; it equals 1856 exactly when the exact age is at least 1855.5 days |
| `AgeNormalizer.HalfDayExamples` | baby.py:27 | 8 months gives day 244 (243.5 rounds to even), 24 months gives 730 (730.5 rounds to even), 6 months gives 183 |
| `AgeNormalizer.AgeMonotoneInMonths` | baby.py:27-30 | for fixed days, more months never give an earlier table day |
| `AgeNormalizer.AgeMonotoneInDays` | baby.py:27-30 | for fixed months, more days never give an earlier table day |
| `AgeNormalizer.AgeMonotoneInMonthsAndDays` | baby.py:27-30 | with 0..29 extra days, the table day follows the (months, days) order, so the last day of a month never passes the first day of the next |
| `AgeNormalizer.AgeSaturates` | baby.py:27-30 | from 61 months on, with any non-negative days, the table day is 1856 |
| `AgeNormalizer.HalfDayMonths` | baby.py:27 | the exact age is a half day exactly when months ≡ 8 (mod 16), whatever the days |
| `AgeNormalizer.AgeDayStep` | baby.py:27-30 | below the cap, one more day advances the table day by exactly 1, except in months ≡ 8 (mod 16), where it advances by 0 or 2 |
| `AgeNormalizer.HalfDayCollision` | baby.py:27 | 8 months 0 days and 8 months 1 day both give day 244; 8 months 2 days gives 246 |
| `UnitDispatch.Factor` | baby.py:38-48 | the conversion factor is positive, and it is 1 exactly for the metric units |
| `UnitDispatch.UnitFor` | baby.py:36-51 | there is no unit exactly for kinds other than weight, length and head circumference; the unit is imperial exactly when the flag is set; it is a mass unit exactly for weight |
| `UnitDispatch.ToTableUnit` | baby.py:33-46 | a positive value stays positive; a metric value is unchanged |
| `UnitDispatch.ToTableUnitRoundTrip` | baby.py:40-46 | dividing the converted value by the unit's factor gives the original value |
| `UnitDispatch.Label` | baby.py:39-48 | the printed label is one of kilograms, pounds, centimeters and inches; it names a mass exactly for the mass units and an imperial unit exactly for the imperial units, which fixes the label of each unit |
| `UnitDispatch.LabelDeterminesUnit` | baby.py:39-48 | the printed labels of different units differ |
| `UnitDispatch.UnitTable` | baby.py:36-48 | weight gives pounds or kilograms, and length and head circumference give inches or centimeters, by the imperial flag |
| `Calculator.CalcValue` | baby.py:10-54 | an unknown kind is reported exactly when there is no unit for it; a missing row exactly when the kind is known and the table has no row at the age key; an unknown-kind error carries the kind and a missing-row error carries the age key; on success the key is `AgeInDays` of the arguments, the row is the table's row at that key, and the value is converted to the table unit |
| `Calculator.CalcValueSucceeds` | baby.py:27-54 | for a table covering 0..1856, a known kind and non-negative months and days, the lookup succeeds at a key in 0..1856, and a positive value stays positive |
| `Validation.RollOver` | baby.py:85-100 | the folded days are in 0..29, and 30·months + days is unchanged once days are clamped at 30 (absent days count as 0) |
| `Validation.Validate` | baby.py:77-115 | it succeeds exactly when every check passes; a failure names the first check in source order that fails; on success only months and days change, and they take their rolled-over values |
| `Validation.FirstFailureUnique` | baby.py:77-115 | at most one check is the first to fail |
| `Validation.SomeCheckFailsFirst` | baby.py:77-115 | any rejected arguments have a first failing check |
| `Validation.RollOverEquivalence` | baby.py:91-100 | (m, 30), (m, 31) and (m+1, 0) all fold to (m+1, 0); absent days and 0 days both fold to (m, 0) |
| `GrowthRun.GenderOf` | baby.py:117-160 | the girls' tables are read exactly for the gender "girl"; once the gender check has passed, the boys' tables are read exactly for "boy" |
| `GrowthRun.CallFor` | baby.py:117-160 | there is a call for an indicator exactly when its measurement is given; it is the right call for that indicator (value, kind, flag, table for the gender) |
| `GrowthRun.PlannedCalls` | baby.py:117-160 | there is one call per given measurement, in the order weight, length, head; each call has its own value and kind, the pounds flag for weight and the inches flag for length and head, and the table for the child's gender |
| `GrowthRun.PlannedCallsIgnoreAge` | baby.py:92-160 | the calls do not depend on months and days, so rolling the age over does not change them |
| `GrowthRun.RunUntilMissing` | baby.py:117-160 | the results are those of the calls in order, taken up to and including the first missing-row error and no further; if fewer results than calls come back, the last result is a missing-row error |
| `GrowthRun.RunOfThree` | baby.py:117-160 | with at most one call per indicator, the run stops after weight if weight meets a missing row, after length if length does, and otherwise gives all three results |
| `GrowthRun.RunShape` | baby.py:117-160 | the run of the planned calls is the weight, length and head results in that order, cut after the first missing-row error |
| `GrowthRun.ComputeOne` | baby.py:117-160 | one block of `main`: no result exactly when the measurement is absent; otherwise the single result is `calc_value` of the indicator's call (its value, kind and flag) against the table for the gender |
| `GrowthRun.ComputeRequested` | baby.py:117-160 | the results are those of the planned calls in order, and the run stops after the first call whose table has no row at the age key |
| `GrowthRun.RunCalculator` | baby.py:73-160 | the run is rejected exactly when some check fails, and then with the first failing check and no results; otherwise the results are those of the planned calls at the rolled-over age, up to and including the first missing-row error; with covering tables every planned call gives a result, which succeeds at a key in 0..1856 with a positive value |
| `GrowthRun.RunMakesEveryCall` | baby.py:102-160 | for admissible arguments, non-negative age and covering tables, no missing-row error stops the run: there is one result per planned call, each a success at a key in 0..1856 with a positive value |
| `GrowthRun.PlannedCallsSucceed` | baby.py:102-160 | for admissible arguments, non-negative age and covering tables, every planned call succeeds with a key in 0..1856 and a positive value |
| `GrowthRun.AdmittedAgeInRange` | baby.py:81-100 | admissible arguments roll over to 0..62 months and 0..29 days, with a table day in 0..1856; 62 months comes exactly from 61 months with 30 or 31 days, and is capped to 1856 |

## Left out

- `calc_percentile` (baby.py:10-21): the LMS z-score uses floating-point `log` and `**` and the normal CDF of SciPy. The model stops at the `Lookup` value that the formula would receive: the key, the converted value and the row's L, M and S.
- Reading the tables with pandas (baby.py:119-156): the six spreadsheets are stood for by a function `load` from table identity to a map from age to row. `Covers` states the property a loaded table needs, a row for each day 0..1856.
- The argument parser (baby.py:59-68) and the script path (baby.py:71): parsed arguments arrive as the `Arguments` value. `months` and `gender` are required by the parser but are modelled as optional, because the checks test for their absence.
- All `print` output, including the error messages and the result line. Errors are `ValidationError` and `CalcError` values. The printed months and days are the `months` and `days` fields of `Lookup`.
- Floating-point representation. Measurements and conversions are exact `real`s, so a NaN or infinite measurement (accepted by the parser's `float`) is not modelled. The age expression is exact in the source for every age the checks admit.
- The in-place update of `args.months` and `args.days` (baby.py:92-97) becomes local variables plus a returned copy of the arguments. That copy differs from the input only in those two fields.
- Which tables `main` opens. It opens none when a check fails and only those for given measurements. Table reading is a pure function here, so the model states this through the results instead: a rejected run carries none, and a reported run has one per given measurement up to the first missing-row error. Tables a later block would have read after that error are not read in the source either.
