# FX forward and rates pricing toolkit: a Dafny model

This project models the pricing core of the FX-and-rates toolkit. The toolkit ships as two near-duplicate
Python packages, `fm_toolkit` and the older `ing_fm`. The model covers:

- **Zero curves.** Both `ZeroCurve` classes, with their construction checks, flat curves, `from_tenors`,
  the `zero_rate` lookup, continuously compounded discount factors and parallel shifts. It also covers
  the tenor-label parser `parse_tenor`.
- **FX forward pricers.** The curve-ratio form of `fm_toolkit` and the analytic
  `spot * exp((rd - rf) T)` form of `ing_fm`.
- **Swap pricer.** Validation, payment schedule, annuity, par rate, the two legs, the payer/receiver
  sign rule and the finite-difference PV01.
- **Risk module.** The spot delta and the swap DV01.
- **Scenario engines.** The eight-row FX forward scenario table and the one-line scenario appliers.
- **Currency pairs.** The pair parser `parse_pair`.
- **Client note.** The markdown tables and the section layout of the FX forward client note.

Modules follow the source files:

| module | file | source |
|---|---|---|
| `Tenor` | `tenor.dfy` | `parse_tenor` |
| `FmCurves` | `fm_curves.dfy` | `fm_toolkit` curves |
| `IngCurves` | `ing_curves.dfy` | `ing_fm` curves |
| `Pillars` | `pillars.dfy` | sort and interpolation rules both curves share |
| `FmFxForwards` | `fm_fx_forwards.dfy` | `fm_toolkit` FX forwards |
| `IngFxForwards` | `ing_fx_forwards.dfy` | `ing_fm` FX forwards |
| `ForwardPayoff` | `forward_payoff.dfy` | the PV formula N (F - K) DF both FX pricers share |
| `Swaps` | `swaps.dfy` | `fm_toolkit` swaps |
| `Risk` | `risk.dfy` | `ing_fm` risk |
| `FmScenarios`, `IngScenarios` | `fm_scenarios.dfy`, `ing_scenarios.dfy` | the two scenario files |
| `MarketData` | `market_data.dfy` | `parse_pair` |
| `Report` | `report.dfy` | `fm_toolkit` report |

Three supporting modules sit underneath:

- `Results`: the `Result`/`Option` types, with one `Error` per kind of failed check. Three of them each
  stand for two messages: the constructor's and `from_tenors`' length checks share `LengthMismatch`,
  the two curves' pillar-count checks ("at least one pillar", "at least two pillars") share
  `TooFewPillars`, and the swap's `notional` and the FX pricers' `notional_base` checks share
  `NonPositiveNotional`. The missing-rate message of `_flat_curve_from_rate` is split by the side it
  names (`MissingDomesticRate`, `MissingForeignRate`).
- `Exponential`: the exponential function.
- `Text`: the ASCII string operations `strip`, `upper`, `split` and `join`.

Arithmetic is over `real`. `math.exp` is a parameter `exp: real -> real` of every member that needs it.
The predicate `Exponential.IsExp(exp)` constrains it: exp is positive, exp(0) = 1, exp(a + b) =
exp(a) exp(b), and exp is strictly increasing. A Python exception is an `Err` result.

The loops of the source are methods proved against the functions that specify them:

- the search loop of `zero_rate` (`FmCurves.ZeroRate`, `IngCurves.ZeroRate`, `Pillars.Scan`);
- the row loop of `fx_forward_scenarios` (`FmScenarios.ScenarioRows`);
- the two row-building loops of the report (`Report.CurvePointsTable`, `Report.ScenarioMarkdownTable`).

Points of the code's behaviour that the model keeps exactly:

- `payment_times(1, 3)` returns `[1/3, 2/3, 1]`, because 1 * 3 is an exact integer
  (`Swaps.ExampleThirds`).
- The `ing_fm` curve requires two pillars and accepts repeated times
  (`IngCurves.RepeatedTimesAccepted`); the `fm_toolkit` curve needs one pillar and unique times.
- `parse_tenor` raises three different messages on the labels it can meet: empty label, bad format
  and non-positive quantity. Its final "unsupported tenor unit" raise is a fourth error that no label
  reaches. The model keeps the four apart.
- `apply_fx_scenario` multiplies by `1 + shock`, so its shock is a fraction. The scenario table divides
  its shock by 100 (`FmScenarios.ApplyFxScenarioMoves`, `FmScenarios.ShockedSpotPositive`).

## Model

| member | source | states |
|---|---|---|
| Tenor.ParseTenor | src/fm_toolkit/curves.py:14-37 | The empty label fails with its own error. Every result is positive. The only errors are empty label, bad format and non-positive quantity, so the last "unsupported tenor unit" raise is unreachable. |
| Tenor.YearFraction | src/fm_toolkit/curves.py:29-37 | A positive quantity with any of the units D, W, M, Y gives a positive year fraction; any other unit is the separate `UnsupportedTenorUnit` error. |
| Tenor.ParseShaped | src/fm_toolkit/curves.py:11-36 | Every label of the form space, digits, space, unit letter of either case, space parses. It gives the unit's year fraction of the quantity (qty/365, 7 qty/365, qty/12, qty), or fails only on a zero quantity. |
| Tenor.ParsedIsShaped | src/fm_toolkit/curves.py:11-22 | Conversely, every label that parses has that form. |
| Tenor.UnshapedFails | src/fm_toolkit/curves.py:17-22 | A non-empty label of none of the accepted forms fails with the format error. |
| Tenor.ShapedNotFormatError | src/fm_toolkit/curves.py:20-22 | Conversely, a label of the accepted form never fails with the format error. |
| Tenor.ExampleSpaces | src/fm_toolkit/curves.py:11-30 | " 10 d " parses to 10/365: whitespace is allowed before, between and after the parts. |
| Tenor.ExampleLowerCase | src/fm_toolkit/curves.py:25-34 | "3m" parses to 0.25: the unit is case-insensitive. |
| Tenor.ExampleZeroQuantity | src/fm_toolkit/curves.py:26-27 | "0M" fails on its quantity. |
| Tenor.ExampleMalformed | src/fm_toolkit/curves.py:17-22 | "", "2X" and "M" fail: empty, unknown unit, no quantity. |
| Tenor.ExampleTwelveMonths | src/fm_toolkit/curves.py:33-34 | "12M" parses to exactly one year. |
| FmCurves.New | src/fm_toolkit/curves.py:47-60 | A constructed curve keeps the given pillars and rates. |
| FmCurves.NewValid | src/fm_toolkit/curves.py:51-60 | Construction succeeds iff the lengths match, there is a pillar, all times are positive and the times strictly ascend. "Equal to its sorted copy and no repeats" is the same as "strictly ascending". |
| FmCurves.NewErrors | src/fm_toolkit/curves.py:51-60 | Each failing check raises its own error, in the source's order. |
| FmCurves.FlatRate | src/fm_toolkit/curves.py:62-68 | `flat(rate, n)` exists iff n >= 1. It has pillars 1..n and looks up `rate` at every positive maturity. For n < 1 it fails as a curve without pillars. |
| FmCurves.Flat | src/fm_toolkit/curves.py:62-68 | A flat curve built has `max_years` pillars, all at `rate`. When it exists, and its rate at every maturity, are in `FmCurves.FlatRate`. |
| FmCurves.ParseEach | src/fm_toolkit/curves.py:79 | It parses every label in order. It succeeds iff every label parses, and otherwise fails with the error of the first label that does not. |
| FmCurves.FromTenors | src/fm_toolkit/curves.py:74-77 | A length mismatch and empty input fail first, in that order. |
| FmCurves.FromTenorsSpec | src/fm_toolkit/curves.py:79-84 | A label that fails to parse is the result. Otherwise the curve exists iff no two labels give the same year fraction, and the only error is then the uniqueness check. The curve is valid and holds exactly the parsed (pillar, rate) pairs, sorted. |
| FmCurves.CollidingLabels | src/fm_toolkit/curves.py:59-60 | Two labels that parse to the same year fraction are rejected by the uniqueness check. |
| FmCurves.DuplicatePillars | src/fm_toolkit/curves.py:79-84 | Labels that parse, two of them to the same pillar, are rejected as duplicate times. |
| FmCurves.FromTenorsSameYear | src/fm_toolkit/curves.py:59-60 | "12M" and "1Y" are rejected together. |
| FmCurves.ZeroRate | src/fm_toolkit/curves.py:86-105 | The three guards and the search loop return the lookup `RateAt`. |
| FmCurves.RateAtCases | src/fm_toolkit/curves.py:89-105 | The lookup fails iff t <= 0. It is flat before the first pillar and from the last pillar on, and exact at every pillar. Between two pillars it is the linear interpolation, and lies between their rates. |
| FmCurves.RateAt | src/fm_toolkit/curves.py:86-105 | The lookup succeeds iff t > 0 and otherwise fails with the lookup error; its value is in `FmCurves.RateAtCases`. |
| FmCurves.Df | src/fm_toolkit/curves.py:107-111 | The discount factor exists iff t > 0. |
| FmCurves.DfValue | src/fm_toolkit/curves.py:107-116 | `df(t)` (and its alias `discount_factor`) is exp(-r(t) t). It is positive, and at most 1 where the rate is not negative. |
| FmCurves.DiscountFactor | src/fm_toolkit/curves.py:113-116 | `discount_factor` is `df`; what `df` returns is in `FmCurves.DfValue`. |
| FmCurves.Shifted | src/fm_toolkit/curves.py:118-125 | The shifted curve keeps the times, is valid, and has every rate raised by bump * 1e-4. |
| FmCurves.ShiftedPassesChecks | src/fm_toolkit/curves.py:122-125 | The constructor the source calls accepts the shifted rates. |
| FmCurves.ShiftedRate | src/fm_toolkit/curves.py:118-125 | Every looked-up rate of the shifted curve is the old one plus bump * 1e-4. |
| FmCurves.ShiftedRoundTrip | src/fm_toolkit/curves.py:118-125 | Shifting by b and then by -b restores the curve. |
| FmCurves.ShiftedZero | src/fm_toolkit/curves.py:118-125 | A zero shift changes nothing. |
| FmCurves.DfShifted | src/fm_toolkit/curves.py:107-125 | A shift by s multiplies every discount factor by exp(-s t). |
| IngCurves.New | src/ing_fm/curves.py:17-28 | A constructed curve keeps the given pillars and rates. |
| IngCurves.NewValid | src/ing_fm/curves.py:21-28 | Construction succeeds iff the lengths match, there are at least two pillars, all times are positive and the times do not descend. Each failing check raises its own error, in order. |
| IngCurves.RepeatedTimesAccepted | src/ing_fm/curves.py:21-28 | A repeated pillar time is accepted. |
| IngCurves.FlatRate | src/ing_fm/curves.py:30-36 | `flat(rate, n)` exists iff n >= 2, so `flat(rate, 1)` fails. It has pillars 1..n and looks up `rate` at every positive maturity. |
| IngCurves.Flat | src/ing_fm/curves.py:30-36 | A flat `ing_fm` curve built has `max_years` pillars, all at `rate`. When it exists is in `IngCurves.FlatRate`. |
| IngCurves.ZeroRate | src/ing_fm/curves.py:38-57 | The guards and the search loop return the lookup `RateAt`. |
| IngCurves.RateAtCases | src/ing_fm/curves.py:41-57 | The lookup fails iff t <= 0 and is flat at both ends. Inside the curve, the pillars the loop picks bracket t strictly on the left, so there is no division by zero even with repeated times. The result is the linear interpolation between their rates. |
| IngCurves.RateAt | src/ing_fm/curves.py:38-57 | The `ing_fm` lookup succeeds iff t > 0 and otherwise fails with the lookup error; its value is in `IngCurves.RateAtCases`. |
| IngCurves.DiscountFactor | src/ing_fm/curves.py:59-63 | The discount factor exists iff t > 0. |
| IngCurves.DiscountFactorValue | src/ing_fm/curves.py:59-63 | It is exp(-r(t) t), and positive. |
| IngCurves.Shifted | src/ing_fm/curves.py:65-72 | The shifted curve keeps the times, is valid, and has every rate raised by bump * 1e-4. |
| IngCurves.ShiftedPassesChecks | src/ing_fm/curves.py:69-72 | The constructor accepts the shifted rates. |
| IngCurves.ShiftedRate | src/ing_fm/curves.py:65-72 | Every looked-up rate is raised by bump * 1e-4. |
| IngCurves.ShiftedRoundTrip | src/ing_fm/curves.py:65-72 | Shifting by b and then by -b restores the curve. |
| IngCurves.ShiftedZero | src/ing_fm/curves.py:65-72 | A zero shift changes nothing. |
| Pillars.SortBy | src/fm_toolkit/curves.py:80 | The pairs are sorted by pillar and are a permutation of the input. |
| Pillars.InterpolateCases | src/fm_toolkit/curves.py:93-105 | The lookup is flat at both ends. On the interval (times[i-1], times[i]] that holds t it is the linear interpolation, so the final fallback return is unreachable. |
| Pillars.Scan | src/fm_toolkit/curves.py:98-105 | The index-scanning loop returns the interpolated rate. |
| Pillars.InterpolateBetween | src/fm_toolkit/curves.py:98-103 | The interpolated rate lies between the two bracketing rates. |
| Pillars.InterpolateAtPillar | src/fm_toolkit/curves.py:98-103 | On strictly ascending pillars, the lookup at a pillar is that pillar's rate. |
| FmFxForwards.FlatCurveFromRate | src/fm_toolkit/fx_forwards.py:8-11 | A missing rate fails with the curve's own error. A given rate becomes the valid one-pillar curve at t = 1.0. |
| FmFxForwards.ResolveCurves | src/fm_toolkit/fx_forwards.py:14-24 | A supplied curve is used unchanged. A missing curve needs its rate, and the domestic side is resolved first. Resolution succeeds iff each side has a curve or a rate. |
| FmFxForwards.ForwardRate | src/fm_toolkit/fx_forwards.py:43-54 | It fails on a missing or non-positive maturity, then on spot <= 0, then on curve resolution. Otherwise it is spot * DF_foreign(T) / DF_domestic(T), which is positive. |
| FmFxForwards.CurveForwardParity | src/fm_toolkit/fx_forwards.py:54 | F * DF_domestic(T) == spot * DF_foreign(T). |
| FmFxForwards.CurveForward | src/fm_toolkit/fx_forwards.py:54 | spot * DF_f(T) / DF_d(T) is positive for a positive spot; its parity relation is `FmFxForwards.CurveForwardParity`. |
| FmFxForwards.FlatRateForward | src/fm_toolkit/fx_forwards.py:36-54 | The flat-rate call equals the call on one-pillar curves. Its forward is spot * exp(-rf T) / exp(-rd T) at every positive maturity. |
| FmFxForwards.PriceFxForward | src/fm_toolkit/fx_forwards.py:73-78 | It fails on notional <= 0, then strike <= 0, then maturity. |
| FmFxForwards.PriceValue | src/fm_toolkit/fx_forwards.py:80-94 | After those checks it fails only where the curves or the inner forward fail; spot <= 0 fails through the forward. Otherwise PV = N (F - K) DF_domestic(T). |
| FmFxForwards.PriceAtFair | src/fm_toolkit/fx_forwards.py:68-94 | PV is 0 iff the strike is the fair forward, positive iff the strike is below it, and negative iff above. |
| ForwardPayoff.PvSign | src/fm_toolkit/fx_forwards.py:94 | With N > 0 and DF > 0, N (F - K) DF is 0, positive or negative exactly as K equals, is below or is above F. |
| ForwardPayoff.PvDecreasingInStrike | src/ing_fm/fx_forwards.py:50 | The PV strictly decreases in the strike. |
| IngFxForwards.ForwardRate | src/ing_fm/fx_forwards.py:8-22 | It fails on maturity <= 0, then spot <= 0; it succeeds iff both are positive, and the forward is then positive. |
| IngFxForwards.ForwardParity | src/ing_fm/fx_forwards.py:21-22 | F * exp(-rd T) == spot * exp(-rf T). |
| IngFxForwards.PriceFxForward | src/ing_fm/fx_forwards.py:25-50 | It fails on notional, then strike, then the forward's own errors. It prices iff all four inputs are positive, as N (F - K) exp(-rd T). |
| IngFxForwards.PriceAtFair | src/ing_fm/fx_forwards.py:43-50 | PV is 0 iff the strike is `forward_rate`, positive iff below, and negative iff above. |
| IngFxForwards.PriceDecreasingInStrike | src/ing_fm/fx_forwards.py:43-50 | A higher strike has a strictly lower PV. |
| IngFxForwards.ForwardMatchesCurveRatio | src/ing_fm/fx_forwards.py:8-22 | The analytic forward is the `fm_toolkit` flat-rate forward, errors included. |
| IngFxForwards.PriceMatchesCurveRatio | src/ing_fm/fx_forwards.py:25-50 | The analytic PV is the `fm_toolkit` flat-rate PV, errors included. |
| Swaps.NewSwap | src/fm_toolkit/swaps.py:20-28 | The swap is built iff notional > 0, fixed rate >= 0, maturity > 0 and frequency > 0. Each failure has its own error, in the source's order. |
| Swaps.Round | src/fm_toolkit/swaps.py:32 | Python's `round`: the nearest integer, with ties to the even one. |
| Swaps.PaymentTimes | src/fm_toolkit/swaps.py:31-35 | It fails iff maturity * n is more than 1e-9 from its rounding. Otherwise the dates are i/n for i = 1..round(maturity * n). |
| Swaps.PaymentTimesSpec | src/fm_toolkit/swaps.py:31-35 | On a positive frequency the dates are positive and strictly increasing. The last date is within 1e-9/n of the maturity, and is the maturity when maturity * n is a whole number. |
| Swaps.ExampleSemiAnnual | src/fm_toolkit/swaps.py:31-35 | (5, 2) gives the ten dates 0.5, 1.0, ..., 5.0. |
| Swaps.ExampleThirds | src/fm_toolkit/swaps.py:31-35 | (1, 3) gives [1/3, 2/3, 1]. |
| Swaps.ExampleFractional | src/fm_toolkit/swaps.py:32-34 | (0.3, 1) and (1.25, 2) fail. |
| Swaps.Annuity | src/fm_toolkit/swaps.py:47 | The sum of accrual * DF(t) exists iff every date is positive. |
| Swaps.AnnuityPositive | src/fm_toolkit/swaps.py:47 | A non-empty schedule has a positive annuity. |
| Swaps.AnnuityShifted | src/fm_toolkit/swaps.py:47 | Raising the curve does not raise the annuity. |
| Swaps.FixedLegValue | src/fm_toolkit/swaps.py:51-60 | The fixed leg is N K times the annuity at accrual 1/n. |
| Swaps.FloatingLegValue | src/fm_toolkit/swaps.py:63-66 | The floating leg is N (1 - DF(T)) at a positive maturity, and fails otherwise. |
| Swaps.FixedLegPv | src/fm_toolkit/swaps.py:51-60 | A fractional period count fails as such, and the only errors are that one, the division by zero and the lookup error; the value is in `Swaps.FixedLegValue`. |
| Swaps.FloatingLegPv | src/fm_toolkit/swaps.py:63-66 | The floating leg exists iff the maturity is positive, and otherwise fails with the lookup error. |
| Swaps.SwapPvValue | src/fm_toolkit/swaps.py:69-87 | A valid swap prices iff its schedule exists. Its PV is then floating - fixed for the payer of fixed and fixed - floating for the receiver. |
| Swaps.PayerReceiver | src/fm_toolkit/swaps.py:85-87 | The receiver's PV is the negation of the payer's, and both share every error. |
| Swaps.SwapPv | src/fm_toolkit/swaps.py:69-87 | Its only errors are those of the two legs; its value is in `Swaps.SwapPvValue` and `Swaps.PayerReceiver`. |
| Swaps.ParRateZeroPv | src/fm_toolkit/swaps.py:38-48 | A swap struck at `par_swap_rate` is worth exactly zero to either side. |
| Swaps.ParSwapRate | src/fm_toolkit/swaps.py:38-48 | Its only errors are the fractional period count, the division by zero and the lookup error; when it succeeds and with what value is in `Swaps.ParSwapRateValue` and `Swaps.ParSwapRateFails`. |
| Swaps.ParSwapRateValue | src/fm_toolkit/swaps.py:38-48 | On a positive frequency and a non-empty schedule the maturity is positive, the annuity A is positive, and the par rate is (1 - DF(T)) / A. |
| Swaps.ParSwapRateFails | src/fm_toolkit/swaps.py:38-48 | A fractional period count fails as such. An empty schedule divides by zero, unless the maturity is not positive and its lookup fails first. A negative frequency fails on the first date's lookup. |
| Swaps.ExampleParRateExists | src/fm_toolkit/swaps.py:38-48 | The five-year semi-annual par rate exists on every valid curve, so `Swaps.ParRateZeroPv` applies to it. |
| Swaps.AtPar | src/fm_toolkit/swaps.py:48 | At (1 - DF(T)) / A the fixed leg equals the floating leg. |
| Swaps.DfShiftedBelow | src/fm_toolkit/swaps.py:93 | A positive bump strictly lowers every discount factor. |
| Swaps.PayerPv01Positive | src/fm_toolkit/swaps.py:90-94 | For a positive bump the payer's PV01 exists and is positive. |
| Swaps.Pv01Sign | src/fm_toolkit/swaps.py:90-94 | For a positive bump the payer's PV01 is positive and the receiver's negative, of equal magnitude. |
| Swaps.SwapPv01 | src/fm_toolkit/swaps.py:90-94 | Its only errors are those of the swap PV; its sign is in `Swaps.PayerPv01Positive` and `Swaps.Pv01Sign`. |
| Risk.SpotDeltaErrors | src/ing_fm/risk.py:21-37 | The delta exists iff both pricings go through and rel_bump != 0. Pricer errors propagate; a non-positive bumped spot and a zero bump fail. |
| Risk.SpotDeltaValue | src/ing_fm/risk.py:21-37 | The delta is N exp((rd - rf) T) exp(-rd T), free of strike and bump. |
| Risk.DeltaQuotient | src/ing_fm/risk.py:37 | The finite difference of N (s c - K) d over a relative spot bump is N c d. |
| Risk.SpotDeltaPositive | src/ing_fm/risk.py:19-37 | For a positive notional the delta is positive. |
| Risk.SpotDeltaBumpFree | src/ing_fm/risk.py:17-37 | Any two valid bumps give the same delta. |
| Risk.SpotDelta | src/ing_fm/risk.py:10-37 | A zero relative bump fails; the full error and value cases are `Risk.SpotDeltaErrors` and `Risk.SpotDeltaValue`. |
| Risk.Dv01Sign | src/ing_fm/risk.py:40-43 | `swap_parallel_dv01` is the one-basis-point PV01. It is positive for the payer and negative for the receiver, of equal magnitude. |
| Risk.SwapParallelDv01 | src/ing_fm/risk.py:40-43 | `swap_parallel_dv01` is `swap_pv01` with a one-basis-point bump; its sign is `Risk.Dv01Sign`. |
| FmScenarios.ApplyCurveScenario | src/fm_toolkit/scenarios.py:20-21 | It keeps the times and adds bump * 1e-4 to every rate, and the result is valid. |
| FmScenarios.DefaultScenarioNeutral | src/fm_toolkit/scenarios.py:13-25 | The default shocks leave the curve and the spot unchanged. |
| FmScenarios.ApplyFxScenarioMoves | src/fm_toolkit/scenarios.py:24-25 | The spot moves by spot * shock, the shock read as a fraction. The shocked spot stays positive for shocks above -1. |
| FmScenarios.ApplyFxScenario | src/fm_toolkit/scenarios.py:24-25 | A positive spot stays positive under a shock above -1; the direction of the move is `FmScenarios.ApplyFxScenarioMoves`. |
| FmScenarios.ApplyCurveScenarioRoundTrip | src/fm_toolkit/scenarios.py:20-21 | Applying a bump and then its opposite restores the curve. |
| FmScenarios.ScenarioDefs | src/fm_toolkit/scenarios.py:58-77 | There are eight definitions. |
| FmScenarios.DefaultNames | src/fm_toolkit/scenarios.py:58-77 | Under the default shocks the names are "Spot -1%", "Spot +1%", "Domestic +25bp", "Domestic -25bp", "Foreign +25bp", "Foreign -25bp", "Spot +1% & Domestic +25bp" and "Spot -1% & Domestic -25bp", in that order. |
| FmScenarios.FxForwardScenarios | src/fm_toolkit/scenarios.py:28-104 | The method returns the table `ScenarioTable`. |
| FmScenarios.ScenarioRows | src/fm_toolkit/scenarios.py:79-102 | The row loop returns the rows of the definitions, each priced independently from the unshocked inputs. |
| FmScenarios.RowsSpec | src/fm_toolkit/scenarios.py:79-102 | The rows exist iff every price does. There is then one row per definition, in order, with its name and shocks, its PV, and its PV less the base PV. |
| FmScenarios.Rows | src/fm_toolkit/scenarios.py:79-102 | A row list that is built has one row per definition; the rows themselves are `FmScenarios.RowsSpec`. |
| FmScenarios.RowsFirstError | src/fm_toolkit/scenarios.py:85-92 | The loop fails with the error of the first scenario that fails. |
| FmScenarios.TableSpec | src/fm_toolkit/scenarios.py:49-104 | A failing base PV is the result. Otherwise the table exists iff every scenario prices, and then has eight rows whose shock columns match the definitions, whose PV is the shocked price and whose PnL is PV - base PV. |
| FmScenarios.ScenarioTable | src/fm_toolkit/scenarios.py:28-104 | A table that is built has the eight rows of the definitions; when it exists and what each row holds is in `FmScenarios.TableExists` and `FmScenarios.TableSpec`. |
| FmScenarios.TableRow | src/fm_toolkit/scenarios.py:80-101 | Each row of a produced table is its definition's row. |
| FmScenarios.ScenarioPv | src/fm_toolkit/scenarios.py:80-89 | Each definition is priced on the shocked spot and the two shifted curves; stated by `FmScenarios.TableRow`. |
| FmScenarios.TableFirstError | src/fm_toolkit/scenarios.py:80-92 | After the base prices, the table fails with the first failing scenario's error. |
| FmScenarios.TableExists | src/fm_toolkit/scenarios.py:49-92 | The table is produced iff notional, strike, maturity and spot are positive and the spot shock lies strictly within (-100, 100) percent. |
| FmScenarios.ShockedSpotPositive | src/fm_toolkit/scenarios.py:81 | spot (1 + pct/100) is positive iff pct > -100, for a positive spot. |
| FmScenarios.SpotOnlyPv | src/fm_toolkit/scenarios.py:81-92 | A scenario with zero curve shocks prices on the given curves, differing from base only through spot. |
| FmScenarios.SpotRowsPnl | src/fm_toolkit/scenarios.py:81-100 | The two spot rows earn N * spot * (±pct/100) * DF_foreign(T). |
| FmScenarios.SpotPnlOpposite | src/fm_toolkit/scenarios.py:81-100 | With a positive shock the spot-up PnL is positive and the spot-down PnL negative, of exactly equal magnitude. |
| IngScenarios.ApplyCurveScenario | src/ing_fm/scenarios.py:17-18 | It keeps the times and adds bump * 1e-4 to every rate, and the result is valid. |
| IngScenarios.ApplyCurveScenarioRate | src/ing_fm/scenarios.py:17-18 | Every looked-up rate is raised by bump * 1e-4. |
| IngScenarios.DefaultScenarioNeutral | src/ing_fm/scenarios.py:10-22 | The default shocks of 0.0 leave curve and spot unchanged. |
| IngScenarios.ApplyFxScenarioMoves | src/ing_fm/scenarios.py:21-22 | The spot moves by spot * shock, the shock read as a fraction. |
| IngScenarios.ApplyFxScenario | src/ing_fm/scenarios.py:21-22 | A positive spot stays positive under a shock above -1; the direction of the move is `IngScenarios.ApplyFxScenarioMoves`. |
| IngScenarios.ApplyCurveScenarioRoundTrip | src/ing_fm/scenarios.py:17-18 | A bump followed by its opposite restores the curve. |
| Text.Strip | src/fm_toolkit/marketdata.py:29-34 | `str.strip` leaves a string that neither starts nor ends with whitespace. |
| Text.StripPadded | src/fm_toolkit/marketdata.py:29-34 | Stripping whitespace padding around a core that starts and ends on a non-space gives back the core. |
| Text.Upper | src/fm_toolkit/marketdata.py:29 | `str.upper` keeps the length and upper-cases each letter a-z, leaving every other character. |
| Text.UpperIdempotent | src/fm_toolkit/marketdata.py:29 | Upper-casing twice is upper-casing once. |
| Text.SplitLength | src/fm_toolkit/marketdata.py:30-31 | `str.split(sep)` gives one more piece than `s` has separators. |
| Text.SplitJoin | src/fm_toolkit/report.py:13-17 | Splitting a join on a one-character separator that no piece contains gives back the pieces. |
| Text.Join | src/fm_toolkit/report.py:13-17 | `sep.join(parts)`; read back by `Text.SplitJoin`. |
| MarketData.ParsePair | src/fm_toolkit/marketdata.py:23-38 | The empty string fails with its own error. Every success is two upper-case three-letter codes. |
| MarketData.CheckParts | src/fm_toolkit/marketdata.py:30-36 | Anything but exactly two pieces is malformed; two pieces are checked stripped. |
| MarketData.CheckCodes | src/fm_toolkit/marketdata.py:34-38 | The checks pass iff both codes are three letters, and then return them. |
| MarketData.ParseShaped | src/fm_toolkit/marketdata.py:29-38 | Every pair of the form space, three letters, space, "/", space, three letters, space parses to its two codes, upper-cased. |
| MarketData.ParsedIsShaped | src/fm_toolkit/marketdata.py:29-38 | Conversely, every pair that parses has that form, and its codes are the upper-cased letters. |
| MarketData.ParseIdempotent | src/fm_toolkit/marketdata.py:38 | A parsed pair written as BASE/QUOTE parses to itself. |
| MarketData.WhitespaceRejected | src/fm_toolkit/marketdata.py:26-32 | A non-empty all-whitespace pair passes the emptiness check and fails as malformed. |
| MarketData.SlashCountRejected | src/fm_toolkit/marketdata.py:29-32 | A cleaned pair without exactly one "/" is malformed. |
| MarketData.ExampleEurUsd | src/fm_toolkit/marketdata.py:23-38 | "EUR/USD" parses to ("EUR", "USD"). |
| MarketData.ExampleLowerPadded | src/fm_toolkit/marketdata.py:29-38 | " gbp/jpy " parses to ("GBP", "JPY"). |
| MarketData.ExampleNoSlash | src/fm_toolkit/marketdata.py:30-32 | "EURUSD" is malformed. |
| MarketData.ExampleTwoSlashes | src/fm_toolkit/marketdata.py:30-32 | "A/B/C" is malformed. |
| MarketData.ExampleLongCode | src/fm_toolkit/marketdata.py:34-36 | "EURO/USD" has a bad code. |
| Report.TableSplit | src/fm_toolkit/report.py:13-17 | Read back line by line, a table of single-line cells has 2 + len(rows) lines: the header, a divider of as many "---" cells as headers, then each row in order. |
| Report.MarkdownTable | src/fm_toolkit/report.py:13-17 | The header line, the rule and one line per row joined by line breaks; read back line by line in `Report.TableSplit`. |
| Report.RowPlain | src/fm_toolkit/report.py:14-16 | A row line of cells without line breaks has none. |
| Report.PrefixLength | src/fm_toolkit/report.py:22 | A slice `[:m]` keeps at most all the items. |
| Report.CurvePointsTable | src/fm_toolkit/report.py:20-24 | The append loop builds the table of the first `max_points` pillars. |
| Report.CurveTableLines | src/fm_toolkit/report.py:20-24 | The default table has the header and then the first min(5, #pillars) pillars, in curve order, as (time, rate) lines. |
| Report.ScenarioMarkdownTable | src/fm_toolkit/report.py:43-67 | The append loop builds the table of the first `top_n` rows. |
| Report.ScenarioTableLines | src/fm_toolkit/report.py:43-67 | The table has the six fixed headers, the divider and one line per kept row, in order. |
| Report.TopSixScenarios | src/fm_toolkit/report.py:116 | Of the eight scenario rows the summary keeps the first six, in order, so the two combined scenarios never appear. |
| Report.ExplanationCases | src/fm_toolkit/report.py:27-40 | The explanation depends on the PV alone and picks exactly one text: at fair iff abs(pv) < 1e-8, below fair iff pv >= 1e-8, above fair iff pv <= -1e-8. |
| Report.PvExplanation | src/fm_toolkit/report.py:27-40 | The explanation is one of the three fixed texts; which one is `Report.ExplanationCases`. |
| Report.TextsDiffer | src/fm_toolkit/report.py:27-40 | The three texts are distinct. |
| Report.ExplanationTruthful | src/fm_toolkit/report.py:27-40 | For a forward PV, "below the fair forward" is said only when the strike is below it, "above" only when above, and a strike at fair reads as at fair. |
| Report.NoteLines | src/fm_toolkit/report.py:118-148 | The note is a 29-entry line list with the five section headings at their fixed entries. |
| Report.Assemble | src/fm_toolkit/report.py:115-148 | A successful assembly is laid out that way. |
| Report.AssembleFails | src/fm_toolkit/report.py:129-130 | Only the two zero-rate lookups can fail, exactly when the maturity is not positive. |
| Report.AssembleShows | src/fm_toolkit/report.py:138-144 | The pricing summary shows the given fair forward, the given PV with its explanation, and the table of the given scenario rows. |
| Report.NoteContent | src/fm_toolkit/report.py:87-148 | A note that is built is laid out with its five sections. |
| Report.ClientNote | src/fm_toolkit/report.py:70-149 | The note is its entries joined by line breaks; the entries are `Report.NoteContent`, and each single-line entry is one line of the note by `Report.EntryIsLine`. |
| Report.NoteFillsForward | src/fm_toolkit/report.py:87-93 | A missing fair forward is priced with `forward_rate`: its error is the note's, and otherwise the note is the one given that value. |
| Report.NoteFillsPv | src/fm_toolkit/report.py:94-102 | A missing PV is priced with `price_fx_forward` in the same way. |
| Report.NoteFillsScenarios | src/fm_toolkit/report.py:103-113 | A missing scenario table is built with `fx_forward_scenarios` and the two shocks. |
| Report.NoteUsesSupplied | src/fm_toolkit/report.py:87-116 | With all three supplied nothing is priced. |
| Report.EntryIsLine | src/fm_toolkit/report.py:149 | An entry without a line break is one whole line of the joined note. |
| Report.PositionIncreasing | src/fm_toolkit/report.py:149 | Later entries start on later lines. |
| Report.HeadingsInOrder | src/fm_toolkit/report.py:118-148 | In a laid-out list, the five headings are whole lines of the joined text, in order. |
| Report.NoteSections | tests/test_report.py:35-39 | Every note that is built holds, as whole lines and in this order, the headings Trade Summary, Market Snapshot, Pricing Summary, Scenario Summary (Top 6) and Next Steps. |

## Left out

- IEEE floating point: all arithmetic is over `real`. The tests' tolerances (1e-8, 1e-6, 1e-4) become
  exact equalities, and the `float()` coercions, including those `__post_init__` writes back into the
  curve fields, are the identity. A curve is therefore an immutable datatype built by a checking
  function.
- `math.exp` is library code outside this model. It is a parameter constrained by `Exponential.IsExp`,
  so the properties hold for every function with its four laws.
- Number formatting is a parameter: the report's `:,.0f`, `:.2f`, `:,.2f`, `:.4f`, `:.6f` and
  `:.4%` are the fields of `Report.Formats`, and the scenario names' `:g` is a parameter `g`. The
  model requires only that these never write a line break.
- Unicode: `strip`, `upper`, `isalpha` and `\s`/`\d` are modelled on ASCII. Other characters are neither
  whitespace, digits nor letters.
- The pandas DataFrame is a sequence of `ScenarioRow` records; `head(n)` is a prefix and `iterrows` a loop.
- `Swaps.ParSwapRate` accepts an empty schedule; the division by zero it then raises is returned as
  `DivisionByZero` (`Swaps.ParSwapRateFails`).
- The live spot providers of `src/fm_toolkit/marketdata.py` (HTTP requests, environment variables,
  clocks) are left out. So are the command-line and Streamlit apps, and the two `build_demo_report`
  functions, which format fixed constants.
- `src/ing_fm/swaps.py` is not part of this model. `src/ing_fm/risk.py`, `src/ing_fm/report.py`,
  `src/ing_fm/__init__.py` and `apps/cli.py` import it as `ing_fm.swaps`.
  `Risk.SwapParallelDv01` and `Risk.Dv01Sign` therefore use the `fm_toolkit` swap pricer of `Swaps`.
- `Risk.SwapParallelDv01`, `Risk.Dv01Sign`: they take an `FmCurves.ZeroCurve`, where the source's
  `swap_parallel_dv01` takes the `ing_fm` curve. The two curves differ in validity: the `ing_fm` one needs
  two pillars and allows repeated times, the `fm_toolkit` one needs one pillar and strictly increasing
  times. The DV01 is not stated for `ing_fm` curves with repeated times.
- The tests that import `fx_forward_scenarios` and `from_tenors` from `ing_fm` refer to functions that
  package lacks. Their assertions are stated about the `fm_toolkit` versions (`FmScenarios.DefaultNames`,
  `FmScenarios.SpotPnlOpposite`).
