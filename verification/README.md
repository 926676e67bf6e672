# Savings-scheme maturity calculator — a Dafny model

The calculator projects a girl-child savings account year by year. The holder pays a
monthly amount, and the account's yearly total must lie between 250 and 150000. The
account is opened at an age within the scheme's bounds. Contributions are taken for 15
years, and interest of 8.2% a year is credited for 21 years on the opening balance plus
that year's contribution. One partial withdrawal may be taken at an age from 18 to 20.
It may not exceed half of the balance accrued before the year it is taken in.

The model covers:

- the Calculate action of `App.tsx`:
  - re-validation of the core inputs;
  - the withdrawal checks;
  - the withdrawal-limit pre-pass loop;
  - the main 21-year loop;
  - the derived totals;
- the four field handlers that fill the form's error slots;
- the Calculate-button gate and the monthly maximum of `components/CalculatorForm.tsx`.

Modules, one per concept:

- `Scheme` (`scheme.dfy`): the scheme constants. `DepositPeriodYears = 15`,
  `MaturityPeriodYears = 21`, `InterestRate = 0.082` (exactly 41/500),
  `MinInvestment = 250`, `MaxInvestment = 150000`. The age bounds are abstract:
  `MaxGirlAge` is `MinGirlAge` plus a natural span, so the minimum never exceeds the
  maximum.
- `Types` (`types.dfy`): `YearlyData` and `CalculationResult`, field for field as in
  `types.ts`.
- `Projection` (`projection.dfy`): the engine. `BalanceAfter` is the pre-pass
  recurrence. `Row` is one year of the main loop, `Schedule` the first `n` years, and
  `Project` the whole result with its totals. The loop methods `BalanceAtWithdrawalStart`
  and `Simulate` are proved equal to these functions. The lemmas state what the table
  means.
- `Validation` (`validation.dfy`): the error values, the range predicates, and the field
  validators `MonthlyInvestmentError`, `GirlAgeError`, `WithdrawalAgeError` and
  `WithdrawalAmountError`. An error is a tagged value that carries the bound it broke,
  such as `WithdrawalExceedsLimit(maxWithdrawal)`, rather than a message.
- `CalculatorForm` (`calculator_form.dfy`): the predicates `IsCoreInvalid`,
  `IsWithdrawalInvalid` and `IsInvalid`, and the constant `MonthlyMax`.
- `App` (`app.dfy`): `Evaluate`, the specification of the Calculate action, and
  `Calculate`, the method that implements it. The class `AppState` holds the
  component's values and error slots and updates them the way the source's handlers
  do.

All amounts are `real`, so every identity below holds exactly. A field holding no
number (`NaN` in the source) is `None` for the monthly amount and the age, the two
fields whose handlers test for it.

Three consequences of the code that a reader might not expect:

- On an out-of-range contribution or age, the Calculate action returns without setting
  any error. Only the field handlers report these errors.
- A non-numeric entry is reported by the handlers alone.
- On success, the withdrawal-age error slot is left as it was.

## Model

| member | source | states |
|---|---|---|
| Projection.BalanceAfter | App.tsx:71-77 | defines the pre-pass balance: 0 after no years, and each year adds the contribution (the yearly amount up to year 15, then 0) plus 8.2% interest on the balance plus that contribution |
| Projection.WithdrawalCap | App.tsx:71-78 | defines the largest admitted withdrawal: half the pre-pass balance after `withdrawalYear - 1` years, which is 0 when `withdrawalYear <= 1` |
| Projection.Row | App.tsx:88-112 | defines one year's record: age `girlAge + year`, the yearly and monthly contribution up to year 15 and 0 after, interest on the opening balance plus the contribution, the withdrawal when enabled and the age matches, the closing balance, and the running contribution total |
| Projection.Project | App.tsx:87-124 | defines the result: the 21-year schedule, the last record's running total as `totalInvestment`, the last closing balance as `maturityValue`, the summed withdrawals as `totalWithdrawal`, and `totalInterest` derived from those three |
| Projection.Schedule | App.tsx:87-115 | the main loop produces exactly one record per simulated year |
| Projection.BalanceAtWithdrawalStart | App.tsx:71-77 | the pre-pass loop yields the balance after `withdrawalYear - 1` years of contribution and interest, and 0 when `withdrawalYear <= 1` |
| Projection.Simulate | App.tsx:55-125 | the main loop and the totals give exactly `Project(p)`: the chained schedule of 21 records, the running contribution total, the summed withdrawal, and the last closing balance as maturity value |
| Projection.SchedulePrefix | App.tsx:103-114 | a run of `m` years is a prefix of a run of `n >= m` years, because later years never rewrite earlier records |
| Projection.RecordShape | App.tsx:87-88 | a result has exactly 21 records in order, and record `k` has `year == k + 1` and `age == girlAge + k + 1` |
| Projection.InvestedAfter | App.tsx:89-91 | after `n` years the running contribution total is the sum of those years' contributions |
| Projection.ContributedClosedForm | App.tsx:89 | the contributions of the first `n` years add up to `min(n, 15) * yearly` |
| Projection.ContributionAt | App.tsx:89-91 | in any run, record `k` has the yearly and monthly contribution up to year 15 and 0 afterwards; its running total is the previous record's total plus its own contribution |
| Projection.ContributionCutoff | App.tsx:89-110 | the same for every record of a result, and the result's `totalInvestment` is `15 * yearly` |
| Projection.BalanceChain | App.tsx:55-114 | the first year opens at 0 and every later year opens with the previous closing balance; `interest == (opening + investment) * 0.082` and `closing == opening + investment + interest - withdrawal` |
| Projection.PrePassMatchesSchedule | App.tsx:71-94 | before the withdrawal year, or with no withdrawal, the main loop's closing balance after `n` years equals the pre-pass balance `BalanceAfter(n)` |
| Projection.CapMatchesMainLoop | App.tsx:78 | the cap is 0 when `withdrawalYear <= 1`, and otherwise half the main loop's closing balance of year `withdrawalYear - 1` |
| Projection.BalanceAfterNonNegative | App.tsx:73-77 | the pre-pass balance is never negative when contributions are not |
| Projection.ClosingNonNegative | App.tsx:78-99 | with a withdrawal no larger than the cap, the closing balance after any number of years is at least 0 |
| Projection.BalancesStayNonNegative | App.tsx:78-99 | with a withdrawal no larger than the cap, every record's closing balance is at least 0 |
| Projection.SingleWithdrawal | App.tsx:96-101 | a record's withdrawal is `withdrawalAmount` if withdrawal is enabled and its age is the withdrawal age, and 0 otherwise; at most one record has a non-zero withdrawal |
| Projection.WithdrawnAfter | App.tsx:96-101 | the sum of withdrawals over `n` years is the amount exactly when withdrawal is enabled and `1 <= withdrawalYear <= n` |
| Projection.TotalWithdrawal | App.tsx:100 | `totalWithdrawal` is `withdrawalAmount` exactly when withdrawal is enabled and the withdrawal age lies in `girlAge + 1 .. girlAge + 21`, and 0 otherwise |
| Projection.ShortfallClosedForm | App.tsx:93-99 | the shortfall the withdrawal causes after `n` years is 0 before the withdrawal year and `amount * 1.082^(n - withdrawalYear)` from that year on |
| Projection.WithdrawalShift | App.tsx:93-114 | with a withdrawal, the closing balance after `n` years is the no-withdrawal balance minus that shortfall |
| Projection.WithdrawalShiftsBalances | App.tsx:93-114 | the same shift holds for every record `k` of a result: its closing balance is the no-withdrawal record's minus the shortfall after `k + 1` years, so the withdrawal year loses exactly the amount and each later year the amount compounded forward |
| Projection.ClosingDecomposes | App.tsx:91-114 | the closing balance after `n` years equals contributions plus credited interest minus withdrawals |
| Projection.Totals | App.tsx:117-124 | `maturityValue` is the last record's closing balance, and `totalInterest == maturityValue + totalWithdrawal - totalInvestment` equals the sum of the yearly interest credits |
| Projection.ReferenceScenario | App.tsx:87-94 | at 4000 a month with no withdrawal, year 1 has investment 48000, interest 3936 and closing balance 51936; year 16 has no contribution and closes at 1.082 times year 15's closing balance; the maturity value is exactly 2298278.134376021263228640250053583677992233182540542692465297063936 |
| Projection.ReferencePrePass | App.tsx:71-77 | for 48000 a year, the pre-pass recurrence run over all 21 years gives exactly that maturity value |
| Validation.InvestmentInRange | App.tsx:47 | defines the Calculate action's contribution test: the yearly total lies in `[250, 150000]` |
| Validation.AgeInRange | App.tsx:48 | defines the Calculate action's age test: the age lies in `[MinGirlAge, MaxGirlAge]` |
| Validation.WithdrawalAgeInRange | App.tsx:62 | defines the withdrawal-age test: `18 <= age < 21` |
| Validation.MonthlyInvestmentError | App.tsx:128-142 | the monthly field has no error exactly when it holds a number whose yearly total passes the Calculate action's range test; a non-number is `InvalidNumber`; otherwise the error names the bound that was crossed |
| Validation.GirlAgeError | App.tsx:144-157 | the age field has no error exactly when it holds a number within `[MinGirlAge, MaxGirlAge]`; a non-number is `InvalidNumber`; otherwise the error names the bound that was crossed |
| Validation.WithdrawalAgeError | App.tsx:159-166 | the withdrawal-age field has no error exactly when `18 <= age < 21`; otherwise the error is the range `[18, 20]` |
| Validation.WithdrawalAmountError | App.tsx:168-176 | the withdrawal-amount field has no error exactly when the amount is positive; the 50% cap is not checked here |
| App.Evaluate | App.tsx:44-126 | defines the Calculate action's outcome: nothing for a core input that is not a number in range; with withdrawal on, the age error, then the amount error, then the cap error with the cap; otherwise `Project` of the inputs |
| App.Calculate | App.tsx:44-126 | the Calculate action returns exactly what `Evaluate` specifies |
| App.EarlyRejection | App.tsx:45-50 | nothing is produced exactly when the monthly amount or the age is not a number in range, which is exactly when a field handler reports an error for one of them |
| App.WithdrawalInputOrder | App.tsx:61-69 | with withdrawal enabled, an age outside `[18, 20]` gives the withdrawal-age error; otherwise an amount `<= 0` gives the amount error; the age check comes first |
| App.WithdrawalCapEnforced | App.tsx:71-84 | past those checks, an amount strictly above the cap is rejected with that cap, and an amount up to and including the cap yields `Project` of the inputs; the cap is 0 when `withdrawalYear <= 1` |
| App.ComputedRun | App.tsx:84-125 | an accepted run is `Project` of the inputs; every closing balance is non-negative; an accepted withdrawal is at most half the main loop's closing balance of the year before the withdrawal year |
| App.EnabledButtonOnlyCapRejects | components/CalculatorForm.tsx:47-49 | when the error slots hold what the field handlers give for the current values and the button is enabled, Calculate either computes or rejects only for the 50% cap |
| App.AppState.constructor | App.tsx:28-41 | the starting state is 4000 a month, age 1, withdrawal off at age 18 for 100000, with no result and no errors; the error slots agree with the validators when age 1 is in range |
| App.AppState.HandleCalculate | App.tsx:44-126 | the inputs never change. An invalid core input changes nothing, so the previous result is kept. Otherwise the amount error is cleared. A withdrawal error goes to its slot and the previous result is kept. A computed projection replaces the result. After any rejection the button is disabled |
| App.AppState.HandleMonthlyInvestmentChange | App.tsx:128-142 | stores the value and sets the investment error slot to the validator's result; nothing else changes |
| App.AppState.HandleAgeChange | App.tsx:144-157 | stores the value and sets the age error slot to the validator's result; nothing else changes |
| App.AppState.HandleWithdrawalAgeChange | App.tsx:159-166 | stores the value and sets the withdrawal-age error slot to the validator's result; nothing else changes |
| App.AppState.HandleWithdrawalAmountChange | App.tsx:168-176 | stores the value and sets the withdrawal-amount error slot to the validator's result; nothing else changes |
| App.AppState.HandleWithdrawalEnabledChange | App.tsx:202 | sets the withdrawal switch and nothing else |
| CalculatorForm.IsCoreInvalid | components/CalculatorForm.tsx:47 | defines the core part of the gate: the investment or the age slot holds an error |
| CalculatorForm.IsWithdrawalInvalid | components/CalculatorForm.tsx:48 | defines the withdrawal part of the gate: withdrawal is on and a withdrawal slot holds an error or the amount is `<= 0` |
| CalculatorForm.IsInvalid | components/CalculatorForm.tsx:49 | defines the button's disabled state: either part of the gate holds |
| CalculatorForm.CoreErrorsDisable | components/CalculatorForm.tsx:47-49 | an investment or age error disables the button |
| CalculatorForm.WithdrawalOffIgnored | components/CalculatorForm.tsx:48 | with withdrawal off, the withdrawal error slots and the amount never change whether the button is disabled |
| CalculatorForm.WithdrawalOnChecked | components/CalculatorForm.tsx:48 | with withdrawal on, a withdrawal-age error, a withdrawal-amount error or an amount `<= 0` disables the button, even when every other slot is empty |
| CalculatorForm.EnabledExactlyWhenClean | components/CalculatorForm.tsx:47-49 | the button is enabled exactly when both core slots are empty and, with withdrawal on, both withdrawal slots are empty and the amount is positive |
| CalculatorForm.MonthlyMaxMatchesYearlyCap | components/CalculatorForm.tsx:50 | `MonthlyMax * 12 == MaxInvestment`, so the top of the monthly input and slider range is exactly the yearly maximum |

## Left out

- `components/ResultsDisplay.tsx` is not part of this model. It holds the chart, the PDF
  export, the share link and the currency formatting, which are all presentation and
  calls into foreign libraries.
- The JSX, the styling, the icons and the tax-benefit panel are left out.
- React plumbing is left out. `AppState` stands for the component's `useState` slots.
  The memoisation and re-render behaviour of `useCallback` are not modelled.
- IEEE-754 rounding is not modelled. Amounts are exact reals, so 0.082 is exactly 41/500.
- Message wording is not modelled, including `Math.floor` and `toLocaleString`. An error
  carries the bound or cap as a number instead, and the cap is not floored.
- An error slot is `Option`, so there is no empty-string message that JavaScript would
  treat as false. The source never produces an empty message.
- Ages are integers. A fractional age typed into a number field is not modelled.
- A non-numeric withdrawal age or amount is not modelled. `NaN` exists in the model
  only for the monthly amount and the age.
- `constants.ts` is not part of this model. The scheme values above are taken as given,
  and the two age bounds are abstract constants.
- App.ComputedRun: relates the withdrawal to a record of the table only when
  `withdrawalAge - girlAge <= 22`. Otherwise the withdrawal year lies past the end of the
  run. That can only happen if the abstract minimum age is at most -3.
