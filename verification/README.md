# Performance engine: a verified model

The engine turns dated valuations and cash flows into performance figures: a money-weighted rate of return
(XIRR), daily time-weighted returns with signs, resets and no-investment periods, Carino-smoothed
contributions, Brinson attribution, and asset-weighted composites. Much of it is column arithmetic that stands
for a rule applied day by day, and most of its results come with a reconciliation claim. This project models
the deterministic calculation core in Dafny and proves those claims for every input.

How the model reads the engine:

* Rates, weights and amounts are exact reals. The two places where representation is the point keep it: the
  bounded `Decimal` contexts (coefficients, exponents, rounding half to even) and the 64-bit integer workspace
  (a `newtype` whose arithmetic only verifies where nothing overflows).
* Dates are day ordinals. Under the ACT bases an exponent of the present value is a whole number of days over
  the days of a year, so the present value is a polynomial in the discount factor `y` of one day.
* `exp` and `log` enter the XIRR solver as a record of maps with their laws (`Xirr.Lawful`: monotone, inverse to
  each other; `RateLaws.LawfulMapsExist` shows that the laws can be met), and `ln` enters Carino smoothing with
  `ln 1 = 0`, `ln xy = ln x + ln y` and `ln x < x - 1`. Both are parameters of the theorems, not axioms.
* Data-frame operations (shift, cumulative sum and product, grouped and plain forward fill, reversed running
  minima) are the functions of `Columns` and `SodResets`. Frames whose columns the engine assigns in place are
  classes; loops are loops with invariants, proved against a specification function about which the properties
  are then proved.

## Main results

* **XIRR.** Flows with at most one sign change have at most one rate above -100 %, and its root is simple, so the
  solver may skip the stationary points; it then cannot answer "no root" when the rate is in bounds, bisection
  closes in on the rate in its grid cell, every rate it reports is near the rate by a bound in the first flow and
  the value tolerance, and the exact condition under which a rate is reported is proved, with controls a caller can
  check beforehand that suffice for it. The recursion on derivatives loses a term each level. On every cell where the isolated derivative keeps its sign, up
  to end pieces where it is too small to matter, no root is missed; a reported rate is then the candidate of the
  partition cell of every root in the bounds, for any number of sign changes. The solver reports a rate if and only if
  the isolation leaves one converged candidate away from every stationary one, so a repeated rate is refused; a
  reported rate balances the flows the caller gave, in whatever order, within the value tolerance. The proofs go through Descartes' rule of signs,
  synthetic division and a second-order remainder bound, from the ordered-field and Archimedean laws alone.
* **Daily returns.** The vectorised sign, reset, start-of-day and compounding rules equal one-pass machines; the
  cumulative pipeline's frame is characterised on every kind of day; the final return of a held position, long or
  short, is the relative gain of its capital.
* **Linking.** Carino linking is exact if and only if the tolerance-band shortfalls balance, and after clearing if
  and only if the cleared days together neither gained nor lost; residual allocation reaches the portfolio return,
  in the proportions of local and FX, and keeps the currency split; every effect column of a period is a difference of
  sums of weights and returns; Brinson effects miss the reported active return by an exact residual on each
  linking outcome, at every hierarchy level; the currency report misses it by an exact term per panel row.
* **Exactness.** The computed precision makes every signed sum and every pairwise product exact; the quantiser's
  precision holds every rounded result; the integer workspace refines the Decimal path.
* **Admission and composites.** Exact success conditions, idempotence, and independence of input order.

## Where the code falls short of the ideal law

Each with an input on which it fails and the condition under which it does not.

* A rate can exist, be the only one and stay unreported: `XirrSoleRate.TinyFlowsUnreported`. For one sign change
  and valid controls and bounds it is reported if and only if (`OneSignChangeRateIff`) either some grid points are
  within the value tolerance, span at most the merge tolerance and absorb the bracketed candidate if there is one,
  or none is and the bracketed candidate converged; `SmoothRateReported` gives controls that ensure the latter.
* Carino factors are 1 for nonzero returns inside the 1e-12 band, so linking is not exact on
  `CarinoClearing.BandDayMisses` and `BandTotalMisses`; the conditions are `CarinoSmoothing.CarinoLinkingExact`
  and `CarinoExactIffDefectsBalance`.
* Clearing no-investment and reset days after smoothing loses their growth, as on `CarinoClearing.ClearedGainMisses`;
  the condition is `ClearingExactIffFlat`. The first no-investment rule flags days with a return
  (`NoInvestmentDayGains`); the second flags none with a local return (`SecondRuleHasNoReturn`).
* The currency effects do not add up to the active return on the four reports of `CurrencyAttribution.ReportFallsShort`.
  With composed base returns a report is exact if and only if three kinds of terms balance over its rows
  (`ReportExactIff`): the interaction of weights and average local returns; the currency returns of either side's
  holdings that differ from the benchmark average of the row; and local returns lost where a side's weights cancel.
  Where a currency has one return on both sides only the interaction is left (`OneCurrencyReturnRow`).
* When the divisor of the linking factor is ill conditioned the effects stay arithmetic while the reported return is
  geometric: `AttributionLevels.SkippedScalingMisses`, and exactly when, `SkippedScalingExactIff`; the residual of every
  outcome is `ReportResidual`.
* Instrument groups whose weights cancel lose their weighted return: `Attribution.CancelledGroupDropsReturn`, and
  exactly when, `InstrumentGroupExactIff`.
* The first no-investment rule compares a flow with a sign, so it depends on the monetary unit:
  `Rules.NipDependsOnUnit` and `NipUnderRescaling`.
* The growth of a short leg is not the product of its local and FX growth: `CumulativeReturns.ShortLegDoesNotCompose` and `ShortFactorComposesIff`.
* Positions without a hierarchy value drop out of the levels that need it: `Hierarchy.MissingValueDropsOut` and
  `LevelMatchesSummaryIff`.
* An ignored date that labels several rows of a frame has no single position, and the policy fails on it:
  `Policies.RepeatedDateIsAmbiguous`; it succeeds exactly when no ignored date does. Frames built from admitted
  observations have no such date.

## Model

| member | source | states |
|---|---|---|
| XirrFlows.NetAmountsByDate | engine/mwr.py:64-70 | the dictionary holds, for every date, the sum of the amounts of that date, over any order and any number of duplicates |
| XirrFlows.NetSameDayFlows | engine/mwr.py:55-61 | netted dates strictly increase, no netted amount is zero, and every date keeps its net amount |
| XirrFlows.ValueFromNetAmounts | engine/mwr.py:55-76 | flow lists with the same net amounts have the same total and the same present value at every discount factor, so netting preserves both |
| XirrFlows.NettedUnique | engine/mwr.py:55-61 | a netted list is determined by its net amounts |
| XirrFlows.NettingIgnoresOrder | engine/mwr.py:55-70 | permuted inputs net to the same list |
| XirrFlows.AnchoredValue | engine/mwr.py:245-272 | discounting from the first netted date only factors out a power of the discount factor |
| XirrFlows.NettedTermsOrdered | engine/mwr.py:261-272 | netted flows give nonzero coefficients at strictly increasing elapsed days, the first at day 0 |
| ExponentialTerms.NormalizedSign | engine/mwr.py:379-387 | dropping zero terms and shifting the smallest exponent to 0 keeps the sign, hence the roots, of the sum at every positive discount factor |
| ExponentialTerms.NormalizedOrdered | engine/mwr.py:379-387 | normalising ordered terms keeps their order and coefficients and starts them at exponent 0 |
| ExponentialTerms.SignChangesOfTerms | engine/mwr.py:398-400 | the count of sign changes over the sparse coefficients is that of Descartes' rule on the polynomial |
| ExponentialTerms.DerivativeLosesTerm | engine/mwr.py:416-420 | with a term at exponent 0 the derivative has strictly fewer terms, so the recursion terminates |
| OneSignChange.DerivativeValue | engine/mwr.py:416-420 | the derivative terms evaluate to the derivative of the present value by the log rate |
| Polynomials.DescartesRule | engine/mwr.py:398-415 | a nonzero polynomial has at most as many positive roots as sign changes |
| OneSignChange.RootsBoundedBySignChanges | engine/mwr.py:398-415 | ordered flows have at most as many internal discount factors as sign changes |
| OneSignChange.UniqueSimpleRoot | engine/mwr.py:414-415 | with at most one sign change a root is the only one and the derivative does not vanish there |
| OneSignChange.SignFlipsAtRoot | engine/mwr.py:414-415 | with exactly one sign change the present value has opposite strict signs on the two sides of its root |
| Bisection.BisectRoot | engine/mwr.py:77-109 | the loop computes the recursive run of the bisection, with the same iteration counts and reasons |
| Bisection.BisectClassified | engine/mwr.py:77-109 | the result stays within the ends, its residual is the function value, it takes at most max_iter iterations, and converged holds exactly when the residual is within tolerance |
| Bisection.BracketHalves | engine/mwr.py:86-109 | the last bracket is nested in the first, has a strict sign change, is n halvings narrower and is centred on the result; the two failure reasons imply a bracket within the rate tolerance, or all iterations spent |
| Bisection.StopsAtRateTolerance | engine/mwr.py:91-98 | j halvings that bring the bracket within the rate tolerance leave at most j + 1 more iterations |
| Bisection.BisectionLocatesCrossing | engine/mwr.py:86-109 | the result is within half the last bracket of the only crossing |
| RootScanning.SortedPoints | engine/mwr.py:437 | the partition is the set of points in strictly increasing order |
| RootScanning.RootList.AppendDistinct | engine/mwr.py:520-526 | the in-place scan replaces the first close unconverged root by a converged candidate, drops a close one otherwise, or appends |
| RootScanning.FindExactRoots | engine/mwr.py:458-472 | the list holds the partition points within tolerance, merged in order |
| RootScanning.FindBracketedRoots | engine/mwr.py:475-498 | one bisected candidate per cell whose ends have opposite signs, left to right |
| RootScanning.ScanPartitions | engine/mwr.py:429-455 | the scan returns the merged candidates, each once and ascending by value, with the first failure reason in merge order |
| RootScanning.MergeRepresents | engine/mwr.py:443-450 | merging ascending candidates leaves each of them represented within the merge tolerance, and converged ones by a converged root |
| RootDetection.MergedDetects | engine/mwr.py:438-450 | every merged root is classified by its residual and spanned by the partition; every partition point within tolerance and every bracketed candidate stays represented |
| RootDetection.ScanDetectsCell | engine/mwr.py:429-455 | every cell whose ends do not share a strict sign has a reported candidate within the merge tolerance |
| RootDetection.NoRootMissed | engine/mwr.py:429-455 | every exact root in a cell on which the function is monotone is reported by that cell's end or bisected bracket |
| Calculus.MonotoneFromDerivativeSign | engine/mwr.py:345-367 | a polynomial whose derivative keeps one sign on an interval is monotone there |
| SmallSlopes.SmallSlopeBound | engine/mwr.py:345-367 | a polynomial with slope at most d on an interval moves by at most d times its width |
| XirrTheorems.MonotoneCell | engine/mwr.py:345-367 | where the terms isolated by the stationary scan keep their sign, the present value is monotone in the log rate |
| XirrTheorems.NoRootMissedByIsolation | engine/mwr.py:314-376 | the isolation reports the qualified cell of every exact root: the derivative keeps its sign there except next to the ends, where it may be as inexact as a bisected stationary point |
| XirrTheorems.RootShowsAtEnds | engine/mwr.py:345-367 | in a qualified cell with a root an end is within tolerance or the ends do not share a strict side |
| XirrStationary.StationaryCandidateResidual | engine/mwr.py:403-426 | at a converged candidate of the stationary scan the derivative is within the tolerance of its normalised terms, scaled back by the power of the discount factor normalising divides out |
| XirrStationary.CellInGrid | engine/mwr.py:355-360 | every cell of the refined partition lies in a cell of the grid |
| XirrStationary.DerivativeSignChangeSeen | engine/mwr.py:345-367 | with more than one sign change, every grid cell at whose ends the derivative has opposite signs puts a point of that cell into the partition, up to the merge tolerance |
| XirrStationary.SettledQualifies | engine/mwr.py:345-367 | on a fine grid a cell that ends at converged stationary candidates and holds their exact stationary points qualifies |
| XirrStationary.SettledCellsQualify | engine/mwr.py:345-367 | settled cells on a fine grid meet the hypothesis under which a reported rate accounts for every root |
| XirrTheorems.SignKeptQualifies | engine/mwr.py:345-367 | a cell on which the derivative keeps its sign throughout qualifies |
| XirrTheorems.IsolatedWithin | engine/mwr.py:314-376 | at every level of the recursion each candidate lies in the search interval and is classified by its residual |
| XirrTheorems.RateReportedIff | engine/mwr.py:535-618 | what the decision needs of a scan: a single converged candidate, uniqueness supported, no failure reason and no stationary root; when the scan has these is RateIffSoleSimple |
| XirrRepeatedRoots.RateIffSoleSimple | engine/mwr.py:501-618 | the solver reports a rate if and only if the flows have both signs, controls and bounds are valid, and the isolation leaves one converged candidate, complete qualification, and no converged candidate of the stationary scan within 1e-8 of it; the log of the rate is that candidate |
| XirrRepeatedRoots.StationaryRootUnreported | engine/mwr.py:508-517 | a converged stationary candidate at which the present value is within tolerance excludes a rate |
| XirrRepeatedRoots.RepeatedRootUnreported | engine/mwr.py:578-590 | 100 out, 220 back, 121 out at equal distances have a rate of return, 10 % when the distance is a year, and no controls with a tolerance of at most 1 and no bounds around it report one |
| XirrRepeatedRoots.FirstFailureMeans | engine/mwr.py:501-505 | the failure reason of a scan is that of its first unconverged candidate, and none exactly when all converged |
| XirrRepeatedRoots.PreflightAnswers | engine/mwr.py:184-226 | which of the four answers before any scan is given, exactly: controls, content, signs, bounds, in this order |
| XirrRepeatedRoots.ScanAnswers | engine/mwr.py:535-618 | which of the other answers is given, exactly, from the candidates of the isolation and their distance from stationary candidates |
| XirrRepeatedRoots.SupportedIff | engine/mwr.py:328-376 | uniqueness is supported unless the terms have more than one sign change and are more than 64; no deeper level of the recursion loses it |
| XirrRepeatedRoots.GridSpacing | engine/mwr.py:285-295 | the grid has at least 32 points, evenly spaced in the log rate from bound to bound |
| XirrRepeatedRoots.ValueToleranceMeans | engine/mwr.py:328 | the value tolerance is the largest of 1e-8, the tolerance, and the tolerance times the gross amount of the flows |
| XirrCalculation.XirrRate | engine/mwr.py:633-712 | the call answers for the netted flows; it reports a rate if and only if they have both signs, controls and bounds are valid, and the isolation leaves one converged candidate away from every converged stationary one; a reported rate lies in the bounds, and at it the flows as given, discounted to the first date that does not cancel, are worth at most the value tolerance of their gross amount |
| XirrCalculation.ReportedRateBalances | engine/mwr.py:275-311 | the residual bound of a reported rate carried back from the netted list to the flows of the caller |
| XirrCalculation.NettingLowersGross | engine/mwr.py:648-650 | the gross amount that scales the tolerance is never larger after netting |
| XirrCalculation.AnswerIgnoresOrder | engine/mwr.py:633-712 | permuted flows get the same answer, reason codes included |
| XirrTheorems.ReportedRateSound | engine/mwr.py:275-311 | a reported rate lies in the requested bounds, and the residual reported with it is its net present value, within tolerance |
| XirrTheorems.UniqueRate | engine/mwr.py:414-415 | flows with at most one sign change have at most one rate above -100 %, whatever the bounds |
| XirrTheorems.OneSignChangeRootFound | engine/mwr.py:314-376 | with one sign change the cell of the root is detected without stationary points, and uniqueness is supported |
| XirrTheorems.OneSignChangeLocated | engine/mwr.py:86-109 | bisection in that cell ends within half its last bracket of the root |
| XirrReporting.OneSignChangeOutcome | engine/mwr.py:633-712 | end to end, for a rate in bounds with one sign change: its grid cell is detected, bisection closes in on it there when the ends have opposite signs, the answer is never "no root" or "non-simple root", and a reported rate is the candidate of that cell |
| XirrReporting.ReportedRateError | engine/mwr.py:86-109 | if the cell ends are out of tolerance, the reported log rate is off the root by at most half the last bracket plus the merge tolerance |
| XirrDistance.ReportedRateNearRate | engine/mwr.py:535-618 | every rate reported for one sign change, from a bracket or from a grid point within tolerance: the first flow grown over the days before the sign change by the ratio of the two discount factors moves by at most the value tolerance |
| XirrDistance.ScaledGap | engine/mwr.py:390-395 | with one sign change, moving the discount factor by t moves the present value at least by the growth of the first flow |
| XirrSoleRate.OneSignChangeRateIff | engine/mwr.py:429-618 | for one sign change a rate is reported if and only if controls and bounds are valid and the grid points within tolerance span at most the merge tolerance with the bracketed candidate merging into them, or none is within tolerance and the bracketed candidate converged |
| XirrSoleRate.DistantPointsNoRate | engine/mwr.py:458-472 | two grid points within tolerance further apart than the merge tolerance exclude a rate |
| XirrSoleRate.AtMostOneBracket | engine/mwr.py:475-498 | with one sign change at most one cell of the grid is bracketed |
| XirrSoleRate.SmoothRateReported | engine/mwr.py:77-109 | a slope bound small enough for the two tolerances, enough iterations and no grid point within tolerance ensure that the rate is reported |
| XirrSoleRate.BisectionConverges | engine/mwr.py:86-109 | under such controls the bisection of a crossing converges |
| XirrSoleRate.TinyFlowsUnreported | engine/mwr.py:328-343 | two tiny flows with a rate that no bounds wider than the merge tolerance report while the daily discount factor in them is at most 2 |
| XirrReporting.ReportedRateAccountsForEveryRoot | engine/mwr.py:535-618 | when the cells qualify, the reported log rate is the candidate of the partition cell of each root in the bounds, and within the merge tolerance of that cell, for any number of sign changes |
| Rules.SignIsMachine | engine/rules.py:33-50 | the flip-group forward fill is the sequential sign machine on every day |
| Rules.SignFrozenBetweenEvents | engine/rules.py:40-49 | the sign of a day is the raw sign of the latest day with an opening flow, a flow at the previous close or a reset the day before, and no such event lies between |
| Rules.NipUnderRescaling | engine/rules.py:53-79 | the second no-investment rule is independent of the monetary unit; the first survives a change of unit only without an opening flow |
| Rules.NipV1Cases | engine/rules.py:62-78 | the first rule case by case: the values cancel, and there is no flow at all, or a close of one unit against the sign of the opening flow |
| Rules.NipDependsOnUnit | engine/rules.py:69-78 | one unit in and out is a no-investment day under the first rule, the same flow in cents is not |
| Rules.OneResetPerRun | engine/rules.py:88-126 | in a maximal run of a breach the reset fires on the first day if and only if that day passes the gate, and on no other day |
| Rules.RecapitalisationResets | engine/rules.py:129-154 | NCTRL_4 fires exactly on a later day whose previous legs are at a collapse boundary and that follows or opens with a flow |
| SodResets.SodResetFlags | engine/rules.py:164-182 | the reversed running minima compute the backward recurrence and mark it into the mask in place |
| SodResets.FastFormIsRecurrence | engine/rules.py:174-180 | the next reset lies at or before the next opening without a flow exactly when the recurrence holds |
| SodResets.SodReach | engine/rules.py:164-182 | a day resets exactly when a later base reset is joined to it by flows at every opening in between |
| SodResets.SodIdempotent | engine/rules.py:181-203 | running the rule on the mask it updated finds and marks nothing new |
| CumulativeReturns.CompoundIsMachine | engine/ror.py:394-467 | grouped product, mask and forward fill equal the one-pass machine that restarts at block starts and repeats the last leg day, 0 before any; what the value on a leg day is, is HeldPositionReturn |
| CumulativeReturns.DecimalCumProd | engine/ror.py:450-454 | the in-place loop leaves the product of the prefix in every row |
| CumulativeReturns.DecimalPathAgrees | engine/ror.py:439-454 | on the rows of one block the Decimal loop computes the machine's growth |
| CumulativeReturns.LongGrowthComposes | engine/ror.py:394-436 | when daily base returns compose local and FX returns, so does the long growth of every block |
| CumulativeReturns.ShortFactorComposesIff | engine/ror.py:430-436 | on the short leg the base growth of a day is the product of local and FX growth if and only if one of the returns is zero |
| CumulativeReturns.ShortLegDoesNotCompose | engine/ror.py:430-436 | 10 % local and 10 % FX give 0.79 against 0.81 |
| CapitalGrowth.DayGrowth | engine/ror.py:93-156 | the growth factor of its leg turns a day's opening capital, positive or negative, into its closing capital on either fee basis |
| CapitalGrowth.HeldPositionReturn | engine/ror.py:394-467 | the compounded column of a position held without flows is (closing / opening - 1) * 100 of its capital since the block began on the long leg, and (1 - closing / opening) * 100 on the short leg |
| ReturnFrames.ReturnFrame.CalculateCumulativeRor | engine/ror.py:289-341 | the updated frame: reset reasons, active, account and start-of-day resets, settled legs of every component and the final return, as the columns that HeldAccountReturn, ThresholdResetsFire and the day lemmas speak about |
| ReturnFrames.ReturnFrame.CalculateResets | engine/ror.py:301-315 | threshold resets come from the legs compounded without resets, and the legs are then compounded with them |
| ReturnFrames.ReturnFrame.MarkResets | engine/ror.py:317-328 | NCTRL_4 joins the active resets, account flags are kept apart, and start-of-day resets start from both |
| ReturnFrames.ReturnFrame.ZeroResetRows | engine/ror.py:371-380 | both legs of every component are 0 on reset rows and unchanged elsewhere |
| ReturnFrames.ReturnFrame.CarryNipRows | engine/ror.py:383-391 | both legs of every component are masked on no-investment rows and filled forward |
| ReturnFrames.LegStateOnDay | engine/ror.py:330-335 | the settled leg column is the day-by-day state of resets and carried days |
| ReturnFrames.NipRepeatsPreviousDay | engine/ror.py:383-391 | a no-investment row repeats the previous row's legs and final return, 0 on the first row, whatever resets coincide |
| ReturnFrames.ResetDayIsZero | engine/ror.py:330-341 | a reset row with investments has all legs of all components and the final return at 0 |
| ReturnFrames.OtherDaysAreMachine | engine/ror.py:315-335 | any other row is the compounding machine restarted after NCTRL_1 to NCTRL_3 resets |
| HeldAccounts.HeldAccountReturn | engine/ror.py:289-341 | on a day that is neither a reset nor a no-investment day, a position held on one leg, with the other at 0, has its relative gain, sign turned for short capital, as the settled leg and as the final cumulative return |
| HeldAccounts.FinalCompoundsLegs | engine/ror.py:337-341 | one plus the final return is the product of one plus each leg |
| HeldAccounts.ShortAccountGains | engine/ror.py:409-411 | capital of -100 that closes at -90 shows +10 % on the short leg |
| HeldAccounts.ThresholdResetsFire | engine/rules.py:104-123 | NCTRL_1 fires exactly on the first day of a long leg below -100 %, NCTRL_2 of a short leg above 100 %, NCTRL_3 of a short leg below -100 % beside a nonzero long leg, where a flow that day or at the next opening, a month end or the report end opens the gate |
| HeldAccounts.ActiveResetsFire | engine/ror.py:311-328 | NCTRL_4 fires exactly on a later day whose previous legs, compounded with the threshold resets, had collapsed and that opens with a flow or follows one; the active resets are the four reasons together |
| IntegerWorkspace.UseExactIntegerWorkspace | engine/compute.py:264-286 | whole amounts are used exactly when the mode is not strict and every amount is integral within int64max / 8, and they equal the originals |
| IntegerWorkspace.FitsMeans | engine/compute.py:284-286 | an amount fits exactly when it is whole and eight times it stays inside int64 |
| IntegerWorkspace.IntNumerator | engine/ror.py:113-121 | the int64 numerator has no overflowing intermediate and equals the Decimal one on both bases |
| IntegerWorkspace.IntDenominator | engine/ror.py:124-128 | the int64 denominator has no overflowing intermediate and equals the Decimal one |
| IntegerWorkspace.WorkspaceRefinesDecimal | engine/compute.py:264-286 | the return as an exact ratio, the sign and both no-investment rules agree between the integer and the Decimal path |
| IntegerWorkspace.HeadroomNeeded | engine/compute.py:267-285 | a limit keeps every net numerator inside int64 exactly when five times the limit does; eightfold is safe |
| Policies.WorkingFrame.ApplyIgnoredDay | engine/policies.py:122-134 | the row of the date takes the previous closing value with no flows or fees; a first or missing date changes nothing, an ambiguous one fails |
| Policies.WorkingFrame.ApplyIgnoreDays | engine/policies.py:104-119 | processing dates in order reaches the closed form with the exact count; it fails at the first ambiguous date, with the dates before it applied and counted |
| Policies.RepeatedDateIsAmbiguous | engine/policies.py:122-127 | a frame with two rows of one date stops the policy there |
| Policies.IgnoredRow | engine/policies.py:122-134 | an ignored row opens and closes at the closing value of the nearest earlier row left unchanged, with no flows or fees and zero daily return, net or gross |
| Policies.PolicyIdempotent | engine/policies.py:104-134 | a second pass changes no row |
| CarinoSmoothing.ContributionFrame.ApplySmoothing | engine/contribution_smoothing.py:80-135 | every row gets the raw or the factored contributions, FX as the remainder under Carino |
| CarinoSmoothing.ContributionFrame.ClearNipAndResetDays | engine/contribution.py:196-201 | smoothed columns are zero exactly on no-investment and reset days and unchanged elsewhere |
| CarinoSmoothing.UnsmoothedRow | engine/contribution_smoothing.py:91-110 | without Carino, or when some day loses everything, the smoothed columns are the raw ones |
| CarinoSmoothing.LinkedRow | engine/contribution_smoothing.py:116-134 | under Carino total and local contributions are the raw ones times the factor of the day over that of the total, and FX is the rest, scaled likewise where the raw parts make up the raw total |
| CarinoSmoothing.ClearedRowMeans | engine/contribution.py:196-201 | on no-investment and reset days all three smoothed columns are zero, on other days nothing changes |
| CarinoSmoothing.FactorPositive | engine/contribution_smoothing.py:27-53 | a linking factor is positive on all branches |
| CarinoSmoothing.FactorMeans | engine/contribution_smoothing.py:27-53 | factor times return is the log of the growth outside the tolerance band; inside it and beyond a total loss the factor is 1 |
| CarinoSmoothing.DefectOnlyInBand | engine/contribution_smoothing.py:49-53 | factor times return is at least the log return, with equality exactly outside the tolerance band |
| CarinoSmoothing.LinkedSumIsLogGrowth | engine/contribution_smoothing.py:112-114 | the factored daily returns add up to the log of the compounded growth plus the daily defects |
| CarinoSmoothing.CarinoExactIffDefectsBalance | engine/contribution_smoothing.py:112-134 | smoothed contributions add up to the compounded return exactly when the band defects of the days and of the total balance |
| CarinoSmoothing.CarinoLinkingExact | engine/contribution_smoothing.py:112-134 | with a total outside the band, linking is exact if and only if no daily return is nonzero inside it |
| CarinoSmoothing.CarinoMissesBandTotal | engine/contribution_smoothing.py:49-52 | a total inside the band reached by days outside it is never matched |
| CarinoSmoothing.ClearingRemovesClearedDays | engine/contribution.py:196-201 | clearing takes exactly the cleared days' contributions out of the total |
| CarinoClearing.ClearedLinkingExactIff | engine/contribution.py:194-201 | after smoothing and clearing, contributions add up to the compounded return exactly when the log growth of the cleared days makes up for the band defects |
| CarinoClearing.ClearingExactIffFlat | engine/contribution.py:194-201 | with no return in the band that is the case if and only if the cleared days together neither gained nor lost |
| CarinoClearing.BandDayMisses | engine/contribution_smoothing.py:49-52 | a day of 1e-10 percent before one of 50 percent does not link exactly |
| CarinoClearing.BandTotalMisses | engine/contribution_smoothing.py:112-114 | a doubling undone but for 1e-12 does not link exactly |
| CarinoClearing.ClearedGainMisses | engine/contribution.py:196-201 | a gain on a no-investment day is lost |
| CarinoClearing.NoInvestmentDayGains | engine/rules.py:62-78 | a valuation row that the first rule flags and that returns the 50 % of that example on either fee basis |
| CarinoClearing.SecondRuleHasNoReturn | engine/rules.py:58-60 | a row the second rule flags has no local return |
| CarinoClearing.ReturnlessDaysFlat | engine/contribution.py:196-201 | cleared days without a return compound to 1, which is when clearing costs nothing |
| CarinoSmoothing.SmoothingKeepsCurrencySplit | engine/contribution_smoothing.py:126-134 | smoothed local plus FX equals the smoothed total |
| Contribution.PositionTotalsConserve | engine/contribution.py:528-538 | grouping by position loses no contribution, in total, local or FX |
| Contribution.PositionTotalMeans | engine/contribution.py:528-538 | each total sums the contributions, local and FX of its own position, with the mean of its daily weights |
| Contribution.ProportionsSumToOne | engine/contribution.py:641-672 | the residual shares of local and FX add up to 1 on every branch when the parts make up the total |
| Contribution.TotalsFrame.ApplyCarinoResidualAllocation | engine/contribution.py:617-638 | without Carino or with zero total weight nothing changes; otherwise the frame holds the allocated rows that ResidualGoesTo and PositionTakesShare describe |
| Contribution.ResidualGoesTo | engine/contribution.py:641-672 | with a total contribution, local and FX keep their ratio to the total; with vanishing parts the residual is all local; otherwise local takes it by the size of its part and FX takes the rest |
| Contribution.PositionTakesShare | engine/contribution.py:627-638 | every position takes the part of its weight of each of the three changes, and nothing else of it changes |
| Contribution.AllocationReachesReturn | engine/contribution.py:617-638 | after the allocation the positions add up to the portfolio return |
| Contribution.AllocationKeepsCurrencySplit | engine/contribution.py:630-638 | positions whose local and FX parts made up their contribution keep that property |
| Hierarchy.MergedRows | engine/contribution.py:541-549 | the merged rows are every position with every metadata row of its own, as often as both occur, and nothing else |
| Hierarchy.MergeCountsMetadataRows | engine/contribution.py:541-549 | in every column the merge counts each position once per distinct metadata row |
| Hierarchy.MergeConserves | engine/contribution.py:541-549 | with one metadata row per position the merge keeps the total of every column |
| Hierarchy.BuildLevels | engine/contribution.py:567-597 | one level per hierarchy name, in order, numbered from 1, each with the name before it as parent and the rows LevelRowMeans describes |
| Hierarchy.LevelRowMeans | engine/contribution.py:574-597 | each row of a level has the sums, in percent, of the contributions, local and FX parts and weights of the positions whose first values are its key; keys do not repeat |
| Hierarchy.LevelCovers | engine/contribution.py:574-597 | every position with its values down to a level present is in some row of it |
| Hierarchy.LevelReconciles | engine/contribution.py:567-597 | every column of a level adds up to the rows whose values down to it are present |
| Hierarchy.LevelMatchesSummary | engine/contribution.py:552-597 | without missing values every column of every level adds up to the summary |
| Hierarchy.LevelMatchesSummaryIff | engine/contribution.py:552-597 | a column of a level adds up to the summary if and only if the rows with a missing value cancel in it |
| Hierarchy.MissingValueDropsOut | engine/contribution.py:576-585 | one position without the hierarchy value: an empty level under a nonzero summary |
| Hierarchy.ContributionReconciles | engine/contribution.py:541-638 | after the allocation the summary and every level equal the portfolio return in percent |
| Attribution.EffectsFrame.CalculateSinglePeriodEffects | engine/attribution.py:666-679 | every row gets the effects of its model, the observations unchanged; what each effect column of a period adds up to is PeriodColumnSums |
| Attribution.PeriodEffectsReconcile | engine/attribution.py:662-679 | BHB effects add up to the period's active return; BF effects miss it by the benchmark return times the weight gap |
| AttributionColumns.PeriodColumnSums | engine/attribution.py:666-679 | the allocations of a period add up to the benchmark returns at portfolio weights less those at benchmark weights (Fachler: less the benchmark return times the weight gap), the selections to the portfolio returns less the benchmark returns at portfolio (Fachler: benchmark) weights, the interactions to the rest |
| AttributionColumns.AggregatedColumn | engine/attribution.py:915-958 | each effect column of an aggregation is the sum of that over the periods, scaled by the geometric over the arithmetic active return when linked |
| AttributionColumns.StatusMeans | engine/attribution.py:933-947 | scaling is done exactly when it is asked for, no period of either side loses everything, and the arithmetic active return exceeds 2^-26 of the sum of the absolute period differences |
| Attribution.BuildAggregationBase | engine/attribution.py:915-958 | status, active return and rows on each of the four linking outcomes; the divisor is nonzero whenever it is used |
| Attribution.EffectsReconcile | engine/attribution.py:915-931 | all effects add up to the arithmetic active return less the weight residual |
| Attribution.LinkingScalesResidual | engine/attribution.py:736-761 | linked effects miss the geometric active return by the residual times geometric over arithmetic |
| Attribution.LinkedEffectsExact | engine/attribution.py:736-761 | linked BHB effects, and BF effects under agreeing weight totals, are exact |
| Attribution.LinkedExactIff | engine/attribution.py:736-761 | linked effects are exact if and only if the weight residual or the geometric active return is zero |
| Attribution.InstrumentGroupsKeepReturn | engine/attribution.py:435-454 | grouping instruments keeps their weighted return except in groups whose weights cancel |
| Attribution.InstrumentGroupExactIff | engine/attribution.py:441-451 | a group keeps the weighted return of its instruments if and only if its weights do not cancel or that return is zero |
| Attribution.InstrumentGroupMeans | engine/attribution.py:435-454 | a group has the total weight of the instruments of its date and keys, and the weighted mean of their returns, or 0 when the weights cancel |
| Attribution.CancelledGroupDropsReturn | engine/attribution.py:448-450 | a long and a short instrument of one size whose return is dropped |
| Attribution.AggregationGap | engine/attribution.py:915-958 | what the effects miss of the reported active return on each of the four linking outcomes |
| CurrencyAttribution.BuildCurrencyProjection | engine/attribution.py:862-912 | per-currency effects in percent, their total, and that total as the active return of the holdings with a currency less what the panel rows miss |
| CurrencyAttribution.EffectTotals | engine/attribution.py:682-688 | each of the four currency effects of a report as a difference of two sums of weights and returns |
| CurrencyAttribution.CurrencyResultMeans | engine/attribution.py:867-887 | the same for the reported result of each currency, in percent, with the total as the sum of the four |
| CurrencyAttribution.RowMisses | engine/attribution.py:682-716 | a panel row of any number of holdings misses their active return by the interaction, each side's currency returns away from the benchmark average, its local returns lost to cancelled weights, and what its base returns hold beyond local and currency returns |
| CurrencyAttribution.ReportExactIff | engine/attribution.py:862-912 | with composed base returns the report adds up to the active return if and only if the interactions, the currency returns away from the benchmark average and the lost local returns balance; no base return enters the condition |
| CurrencyAttribution.RowExactIff | engine/attribution.py:682-716 | the same for one panel row of any number of holdings |
| CurrencyAttribution.OneCurrencyReturnRow | engine/attribution.py:682-716 | with one currency return on both sides a row is exact if and only if the weights agree, the average local returns agree, or the currency is wiped out |
| CurrencyAttribution.ReportFallsShort | engine/attribution.py:682-716 | four reports that do not add up: overweight with better local returns, a currency return of the portfolio's own, a long and a short holding that cancel, and benchmark holdings with different currency returns |
| AttributionLevels.BuildAttributionLevels | engine/attribution.py:776-806 | the levels, built from the finest and reversed, come in order from the first key to all keys |
| AttributionLevels.LevelColumnTotal | engine/attribution.py:785-802 | the totals of any level are those of the rows whose keys are all present |
| AttributionColumns.LevelColumnReported | engine/attribution.py:785-802 | each reported column of a level is that of the rows less the rows with a missing key, in percent, and the total effect is the sum of the three |
| AttributionColumns.LevelGroupMeans | engine/attribution.py:785-802 | each reported group of a level has, in each column and in percent, the sum of the effects whose keys are all present and begin with its key; keys do not repeat |
| AttributionLevels.LevelsShareTotals | engine/attribution.py:776-806 | every level reports the same totals, and without missing keys the total of all effects |
| AttributionLevels.ReportResidual | engine/attribution.py:809-850 | the reported residual is the gap of the linking outcome plus the effects of rows with a missing key, at every level |
| AttributionLevels.SkippedScalingExactIff | engine/attribution.py:939-958 | when scaling is skipped the effects explain the reported return if and only if the geometric return exceeds the arithmetic one by just what the weight totals cost |
| AttributionLevels.SkippedLevelExactIff | engine/attribution.py:809-850 | the same for the total of any level, rows with a missing key included |
| AttributionLevels.SkippedScalingMisses | engine/attribution.py:939-958 | two periods whose effects add up to zero while a geometric return of -1 % is reported |
| NumericalBoundary.SignedSumFits | engine/numerical_boundary.py:24-42 | every signed sum that uses each value at most once has a coefficient within the computed precision |
| NumericalBoundary.SumInContext | engine/numerical_boundary.py:15-21 | a running sum in such a context never rounds and ends at the exact sum |
| Decimals.RoundedMeans | engine/numerical_boundary.py:15-21 | what a context does to a result too long for it: the surplus digits go, to the nearest and of two equally near to the even multiple |
| NumericalBoundary.MonetarySum | engine/numerical_boundary.py:15-42 | a sum is refused exactly when the digits of its values, their count and the reserve exceed 4096, and is otherwise exact with at most that many digits, whatever the ambient precision |
| NumericalBoundary.PrecisionMeans | engine/numerical_boundary.py:24-46 | the precision is the most digits before the point, the most after it, those of the count and 16 more; for products at least twice the longest coefficient in place of the first two |
| NumericalBoundary.PairwiseProductExact | engine/numerical_boundary.py:35-46 | in product mode every pairwise product is exact |
| NumericalBoundary.ProductModeCoversSums | engine/numerical_boundary.py:34-42 | product mode never lowers the precision, so sums stay exact in it |
| NumericalBoundary.QuantizePrecisionSuffices | engine/composites.py:134-139 | the quantiser's precision holds every rounded result at both quanta, carries included |
| NumericalBoundary.QuantizePrecisionMeans | engine/composites.py:134-139 | 28 digits for values whose leading digit stands for at most 10^10, 18 more than its power beyond |
| NumericalBoundary.QuantizeError | engine/composites.py:134-139 | rounding moves a value by at most half a unit of the last place |
| Decimals.RoundHalfEvenMeans | engine/composites.py:134-139 | the result is the nearest multiple, and of two equally near the even one |
| Composites.WeightedReturn | engine/composites.py:193-221 | the loop over the sorted members returns the sum of their contributions, whatever the order |
| Composites.CalculatePeriod | engine/composites.py:537-573 | a period fails exactly when a ready member lacks ending assets, and otherwise has the outcome of its ordered block policies |
| Composites.BlockMeans | engine/composites.py:258-340 | why a period is blocked, as a condition on the facts: no ready member, assets that do not exceed zero, views that differ, currencies that differ |
| Composites.GroupByPeriod | engine/composites.py:504-514 | each period maps to the facts of the composite in it, in input order, and no group is empty |
| Composites.CalculateComposite | engine/composites.py:576-627 | periods in date order, results, status and terminal return of the whole composite |
| Composites.PeriodReports | engine/composites.py:452-501 | the return a period reports is, before one rounding, the member returns weighted by their beginning assets; its cumulative return is the growth so far; a blocked period reports neither; the counts are those of ready and excluded members |
| Composites.CompositeStatusMeans | engine/composites.py:517-534 | a composite is blocked exactly when all periods are, and ready exactly when there is one and all are ready |
| Composites.AssetWeighting | engine/composites.py:200-221 | the weighted return times the assets is the sum of the member returns times their own assets |
| Composites.TerminalIsCompoundedReturn | engine/composites.py:617-627 | the terminal return is the product of one plus the weighted returns of calculated periods, less one, rounded once; absent exactly when none was calculated |
| Composites.WeightsSumToOne | engine/composites.py:200-203 | unquantised member weights add up to 1 |
| Composites.PeriodReturnBetweenMembers | engine/composites.py:193-221 | with nonnegative members the period return lies between any bounds of the member returns |
| Composites.OutcomeIgnoresOrder | engine/composites.py:537-573 | the outcome of a period depends on the multiset of its facts only |
| Composites.CompositeIgnoresOrderAndOthers | engine/composites.py:504-627 | input order and facts of other composites change no period and no result |
| Admission.EconomicSignature | core/valuation_observation_admission.py:86-98 | the loop returns the amounts in field order, absent optional fields as 0, or the error of the first invalid field; what a signature holds is SignatureWritten |
| Admission.SignatureWritten | core/valuation_observation_admission.py:86-98 | the signature of a usable observation is beginning and ending value, both flows and the fees, in this order |
| Admission.ConflictingFields | core/valuation_observation_admission.py:69-78 | a field is named exactly when the two signatures differ in it |
| Admission.ConflictNamesFields | core/valuation_observation_admission.py:69-78 | a conflict error names exactly the fields of the observation in which the two differ, absent counting as 0 |
| Admission.AdmitValuationObservations | core/valuation_observation_admission.py:53-83 | success exactly when every date is known, every field is a finite number or, flows and fees alone, absent, and observations of one date agree in every field, with the first observation of each date; otherwise the error of the first observation that breaks this |
| Admission.AdmissibleIsAcceptable | core/valuation_observation_admission.py:53-83 | the step-wise condition is that condition on the fields |
| Admission.FailureExplained | core/valuation_observation_admission.py:57-81 | an error names the first observation whose date is unknown, whose field is at fault, or that contradicts an admitted one of its date |
| Admission.AdmissibleStep | core/valuation_observation_admission.py:60-81 | an admissible prefix stays admissible with one more observation exactly when that step raises no error |
| Admission.AdmittedAreFirsts | core/valuation_observation_admission.py:57-83 | the result is an order-preserving subsequence with unique dates, each member the first of its date |
| Admission.AdmissionIdempotent | core/valuation_observation_admission.py:53-83 | admitting an admitted list changes nothing |
| Admission.AdmittedStates | core/valuation_observation_admission.py:57-83 | the admitted list establishes the same signature for every date as the input |
| Admission.AdmissionIgnoresOrder | core/valuation_observation_admission.py:53-83 | input order changes neither whether admission succeeds nor the admitted date-to-signature map |

## Left out

- Floating-point rounding, overflow and the finiteness tests of the float path: rates are exact reals, so tolerances are compared exactly.
- XirrTheorems.NoRootMissedByIsolation: that a cell qualifies is a hypothesis. SettledQualifies derives it from
  converged stationary candidates and a fine grid, given that the exact stationary points of the cell are the ones
  those candidates stand for; the one-sign-change theorems do not need it.
- XirrReporting.ReportedRateAccountsForEveryRoot: has that hypothesis for every cell.
- IntegerWorkspace.WorkspaceRefinesDecimal: the integer path divides in float64; the division is taken exactly here.
- BUS/252 session counts: distinct dates can share an exponent there, so the elapsed measures are no longer strictly increasing; elapsed days are taken from the ACT bases.
- Convergence metadata, notes and the calendar evidence returned with an XIRR result.
- The Dietz and Modified Dietz fallback and the annualisation of rates: single expressions.
- FX rate lookup, hedge ratios and the choice of currency mode: local, FX and base returns enter as given columns.
- Month ends, report ends and effective period starts: given columns.
- Overrides of market values and flows, and rolling-median outlier flags.
- Policies.WorkingFrame.ApplyIgnoreDays: sorting the frame by date is its precondition, not one of its steps.
- Weighting of instruments, the zero-capital contribution and the restoration of Decimal columns: raw contributions and weights enter as given columns.
- CarinoSmoothing.CarinoExactIffDefectsBalance: one row per portfolio date, and every contribution row on a portfolio date, which the merges of the engine ensure.
- The strict Decimal series for Carino factors inside the tolerance band.
- Group context metrics (average weights, weighted returns) and the display order of group rows.
- The average weights shown beside the currency effects.
- Reason codes, fingerprints, restatement sequences, dispersion, quantised member rows and the asset columns of composite results.
- Composites.WeightedReturn: the order of members with equal portfolio ids is not fixed, since no result depends on it.
- Parsing of dates and numbers in admission: a field is absent, not a number, not finite or a finite number, and a date is known or invalid.
- Request validation, supportability reasons, diagnostics and result envelopes.
