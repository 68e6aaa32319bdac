# Debt consolidation calculator — verified model

This project models the arithmetic and state logic of a debt consolidation
calculator. The user enters credit cards (balance, APR, optional monthly
payment). The calculator then:

- summarises the cards that carry a balance at a positive APR;
- simulates paying each one off month by month;
- compares the result with a single fixed-rate consolidation loan;
- projects what investing the loan payment until age 90 would grow to.

Around that sit a reducer that adds, removes and updates cards and sets
the loan and investment parameters, and the calculator's initial state.

The repository holds two front ends that share this logic:

- the single-file component `debt-calculator.jsx`;
- the hook-based version under `src/features/DebtCalculator`.

The model covers both. Their shared derivations are stated once, in
`Aggregation`. The differences are parameters: how a card's payment and
payoff are found, and how reset behaves.

Modules and files:

- `arith.dfy` (`Arith`): exact-arithmetic stand-ins for `Math.max`,
  `Math.pow` and `Math.round`, plus numbers that may be `Infinity` (`Ext`).
- `calculations.dfy` (`Calculations`):
  - the minimum payment;
  - the payoff loop, as a method proved against a recursive function;
  - the loan payment and its interest, proved against the amortization
    schedule they imply;
  - the nested investment loops, proved against a per-year series.
- `types.dfy` (`Types`): the card and calculator-state records.
- `cards.dfy` (`Cards`): add, remove and update on a card list keyed by id,
  and the validity filter.
- `constants.dfy` (`Constants`): default cards, initial state and control
  ranges.
- `reducer.dfy` (`CalculatorReducer`): the reducer.
- `aggregation.dfy` (`Aggregation`): debt summary, consolidation and
  investment projection.
- `legacy.dfy` (`LegacyCalculator`): the single-file component's summary
  loop, initial state, `hasValidCards` and `handleReset`.
- `hook.dfy` (`DebtCalculations`): the hook's summary loop, payoff-chart
  guard and agreement with the single-file component.

Modelling choices:

- Money and rates are exact `real`s.
- `Math.round(x)` is `floor(x + 1/2)`.
- The payoff loop's `Infinity` result is `Payoff.Unbounded`. Summed or
  maximised, it becomes `Ext.Infinity`, which absorbs `+` and `Math.max`.
- Random ids from `generateId()` arrive as parameters.
- A card without a `monthlyPayment` has payment 0, since `undefined > 0` is
  false.
- The hook imports three functions that do not appear in `calculations.ts`:
  - `calcMinPayment(balance, apr)`, with two arguments;
  - `calcCreditCardPayoffDynamic`;
  - `calcDebtPayoffTimeline`.
  These enter the model as function parameters.

The payoff loop stops after 600 months
(`src/features/DebtCalculator/utils/calculations.ts:3,21`). It returns
`Infinity` as soon as a month's principal would be zero or less
(`calculations.ts:24-25`).

## Model

| member | source | states |
|---|---|---|
| Arith.Round | src/features/DebtCalculator/utils/calculations.ts:76-78 | Math.round gives the integer within one half above or below x, halves going up |
| Arith.Add | debt-calculator.jsx:633 | the sum is Infinity exactly when either summand is; otherwise it is the real sum |
| Arith.MaxExt | debt-calculator.jsx:634 | the max is Infinity exactly when either argument is; otherwise it is one of them and at least both |
| Arith.Sub | src/features/DebtCalculator/hooks/useDebtCalculations.ts:81 | Infinity minus a finite loan interest stays Infinity; otherwise adding the subtrahend back gives the minuend |
| Calculations.MonthlyRate | src/features/DebtCalculator/utils/calculations.ts:17 | the monthly rate is zero exactly when the APR is, and non-negative exactly when the APR is |
| Calculations.MinPayment | src/features/DebtCalculator/utils/calculations.ts:5-8 | the minimum is at least $25 and at least 2% of the balance, and equals one of the two |
| Calculations.NextBalance | src/features/DebtCalculator/utils/calculations.ts:26 | with positive principal, the new balance is never negative and falls strictly below a positive balance |
| Calculations.PayoffFrom | src/features/DebtCalculator/utils/calculations.ts:21-30 | the loop from a given month on: it stops with the months and interest so far once at most 0.01 is owed or 600 months have passed, and gives Infinity once the payment stops covering the interest; Calculations.PayoffLoop is proved equal to it and Calculations.PayoffMonthsBounded, PayoffInterestGrows and PayoffFiniteOnceCovered state its properties |
| Calculations.PayoffOf | src/features/DebtCalculator/utils/calculations.ts:11-31 | the payoff of a balance at an APR and a fixed payment, from month 0 at `apr / 100 / 12`; Calculations.PayoffUnboundedIff gives both directions of its Infinity condition; the single-file component does the same at debt-calculator.jsx:43-59 |
| Calculations.CreditCardPayoff | src/features/DebtCalculator/utils/calculations.ts:11-31 | the loop's result is the payoff function's; a balance of at most 0.01 gives 0 months and 0 interest; a finite result has at most 600 months |
| Calculations.PayoffLoop | src/features/DebtCalculator/utils/calculations.ts:16-30 | the while loop with its early Infinity return computes the recursive payoff simulation |
| Calculations.PayoffMonthsBounded | src/features/DebtCalculator/utils/calculations.ts:3 | every finite payoff has at most MAX_PAYOFF_MONTHS = 600 months |
| Calculations.PayoffInterestGrows | src/features/DebtCalculator/utils/calculations.ts:22-23 | at a non-negative rate the accumulated interest never decreases during the simulation |
| Calculations.PayoffInterestNonNegative | src/features/DebtCalculator/utils/calculations.ts:18-23 | at a non-negative APR a finite payoff reports non-negative total interest |
| Calculations.PayoffFiniteOnceCovered | src/features/DebtCalculator/utils/calculations.ts:21-28 | once the payment beats the interest on the current balance, the simulation ends finitely (interest only shrinks as the balance falls) |
| Calculations.PayoffUnboundedIff | src/features/DebtCalculator/utils/calculations.ts:21-25 | for balance > 0.01 and APR >= 0, the result is Infinity exactly when payment <= balance times the monthly rate |
| Calculations.MinPaymentDiverges | debt-calculator.jsx:39-54 | at APR >= 24 and balance >= 1250, paying the 2% minimum never clears the card |
| Calculations.MinPaymentConverges | debt-calculator.jsx:39-58 | at 0 <= APR < 24, paying the minimum always ends finitely |
| Calculations.LoanAtZeroRate | src/features/DebtCalculator/utils/calculations.ts:39-54 | at 0% the payment times the term is the principal and the total interest is 0 |
| Calculations.LoanPayment | src/features/DebtCalculator/utils/calculations.ts:34-45 | the level payment: straight division at 0% (Calculations.LoanAtZeroRate), otherwise the solution of p((1+r)^n - 1) = P r (1+r)^n (Calculations.LoanPaymentEquation), and it retires the loan in n months (Calculations.LoanPaymentRetiresLoan); the single-file component does the same at debt-calculator.jsx:61-65 |
| Calculations.LoanTotalInterest | src/features/DebtCalculator/utils/calculations.ts:48-55 | payment times term minus the principal, which equals the interest the schedule charges month by month (Calculations.LoanInterestIsScheduleInterest); 0 at 0% and positive at a positive rate (Calculations.LoanInterestPositive); the single-file component does the same at debt-calculator.jsx:67-70 |
| Calculations.ScheduleInterestTelescopes | src/features/DebtCalculator/utils/calculations.ts:53-54 | the interest of an amortization schedule after k months is k payments plus the remaining balance minus the principal |
| Calculations.AmortizeClosedForm | src/features/DebtCalculator/utils/calculations.ts:41-44 | a payment satisfying the annuity equation leaves the closed-form balance P(X - (1+r)^k)/(X - 1) after k months |
| Calculations.LoanPaymentEquation | src/features/DebtCalculator/utils/calculations.ts:41-44 | at a non-zero rate the loan payment satisfies the annuity equation p((1+r)^n - 1) = P r (1+r)^n |
| Calculations.LoanPaymentRetiresLoan | src/features/DebtCalculator/utils/calculations.ts:33-45 | paying calcLoanPayment for termMonths months, with interest each month, ends at a balance of exactly 0 |
| Calculations.LoanInterestIsScheduleInterest | src/features/DebtCalculator/utils/calculations.ts:47-55 | payment times term minus principal is exactly the interest the amortization schedule charges |
| Calculations.AmortizeStaysPositive | src/features/DebtCalculator/utils/calculations.ts:33-45 | at a positive rate and with a positive principal the loan balance stays positive before the last month |
| Calculations.ScheduleInterestPositive | src/features/DebtCalculator/utils/calculations.ts:47-55 | at a positive rate on a positive principal, every non-empty prefix of the schedule charges positive interest |
| Calculations.LoanInterestPositive | src/features/DebtCalculator/utils/calculations.ts:47-55 | APR > 0, principal > 0 and term >= 1 give a defined loan with positive total interest |
| Calculations.Deposited | src/features/DebtCalculator/utils/calculations.ts:71 | the running deposit total is non-negative for a non-negative deposit |
| Calculations.YearPoint | src/features/DebtCalculator/utils/calculations.ts:73-79 | the rounded point pushed at the end of year y: Invested is round(12·y·deposit) (Calculations.InvestmentSeriesInvested), and for a non-negative deposit and rate Growth is never negative and Invested never exceeds total (Calculations.YearPointsOrdered) |
| Calculations.SeriesAtRate | src/features/DebtCalculator/utils/calculations.ts:68-80 | one point per year 1..years, in order, none when years < 1 (Calculations.SeriesAtRatePoints); Calculations.GrowthLoops is proved equal to it |
| Calculations.InvestmentSeries | src/features/DebtCalculator/utils/calculations.ts:58-83 | the chart at `annualReturn / 100 / 12`; Calculations.InvestmentGrowth returns it and, for a non-negative deposit and annual return, Calculations.InvestmentSeriesMonotone states that invested and total never fall |
| Calculations.InvestmentGrowth | src/features/DebtCalculator/utils/calculations.ts:58-83 | the computation returns the per-year chart series for the deposit, return and years |
| Calculations.GrowthLoops | src/features/DebtCalculator/utils/calculations.ts:63-82 | the nested year and month loops, with compounding before each deposit and one rounded point per year, compute that series |
| Calculations.DepositedIsProduct | src/features/DebtCalculator/utils/calculations.ts:71 | summing the deposit k times gives k times the deposit |
| Calculations.SeriesAtRatePoints | src/features/DebtCalculator/utils/calculations.ts:68-80 | the series has one point per year 1..years in order, and none when years < 1 |
| Calculations.InvestmentSeriesInvested | src/features/DebtCalculator/utils/calculations.ts:76 | the point for year y reports Invested = round(12 y deposit) |
| Calculations.GrownCoversDeposits | src/features/DebtCalculator/utils/calculations.ts:70-71 | with a non-negative deposit and rate, the unrounded balance is at least the total deposited |
| Calculations.GrownMonotone | src/features/DebtCalculator/utils/calculations.ts:68-72 | with a non-negative deposit and rate, the unrounded balance never falls |
| Calculations.DepositedMonotone | src/features/DebtCalculator/utils/calculations.ts:71 | with a non-negative deposit, the deposit total never falls |
| Calculations.YearPointsOrdered | src/features/DebtCalculator/utils/calculations.ts:73-79 | for a non-negative deposit and monthly rate: later years report no less invested and no less total; growth is non-negative; invested never exceeds total |
| Calculations.InvestmentSeriesMonotone | src/features/DebtCalculator/utils/calculations.ts:64-80 | the same four facts about the chart for a non-negative deposit and a non-negative annual return |
| Cards.Filter | src/features/DebtCalculator/hooks/useCalculatorReducer.ts:28 | filtering never lengthens the list and keeps exactly the elements that pass |
| Cards.FilterAppend | src/features/DebtCalculator/hooks/useCalculatorReducer.ts:28 | filtering distributes over concatenation, so kept cards stay in their original order |
| Cards.FilterKeepsAll | src/features/DebtCalculator/hooks/useCalculatorReducer.ts:28 | filtering returns the list unchanged exactly when every element passes |
| Cards.FilterIdempotent | src/features/DebtCalculator/hooks/useCalculatorReducer.ts:28 | filtering twice by the same test is filtering once |
| Cards.BlankCard | src/features/DebtCalculator/hooks/useCalculatorReducer.ts:21 | the added card has the given id, an empty name, balance 0, APR 0 and no payment |
| Cards.AddCard | src/features/DebtCalculator/hooks/useCalculatorReducer.ts:16-23 | the new list is the old one with exactly one blank card appended at the end; the single-file component does the same at debt-calculator.jsx:587-592 |
| Cards.RemoveCard | src/features/DebtCalculator/hooks/useCalculatorReducer.ts:25-29 | the new list keeps exactly the cards whose id differs, never grows, and holds no card with that id; the single-file component does the same at debt-calculator.jsx:594-596 |
| Cards.RemoveAbsent | src/features/DebtCalculator/hooks/useCalculatorReducer.ts:25-29 | removing an id no card has changes nothing |
| Cards.RemoveDistributes | src/features/DebtCalculator/hooks/useCalculatorReducer.ts:28 | removal keeps the remaining cards in their original order |
| Cards.AddThenRemove | src/features/DebtCalculator/hooks/useCalculatorReducer.ts:16-29 | adding under a fresh id and removing that id gives back the original list |
| Cards.ApplyUpdate | src/features/DebtCalculator/hooks/useCalculatorReducer.ts:36 | the spread update sets the named field to the value, and every other field keeps its value |
| Cards.ApplyUpdateIdempotent | src/features/DebtCalculator/hooks/useCalculatorReducer.ts:36 | applying the same field update twice equals applying it once |
| Cards.UpdateCard | src/features/DebtCalculator/hooks/useCalculatorReducer.ts:31-39 | the length is kept; matching cards get the update and all others are unchanged; the single-file component does the same at debt-calculator.jsx:598-602 |
| Cards.UpdateKeepsIds | src/features/DebtCalculator/hooks/useCalculatorReducer.ts:31-39 | an update of any field other than id keeps every card's id |
| Cards.UpdateIdempotent | src/features/DebtCalculator/hooks/useCalculatorReducer.ts:31-39 | repeating an update is a no-op unless it re-keys the cards to another id |
| Cards.ValidCards | src/features/DebtCalculator/hooks/useDebtCalculations.ts:21 | the valid cards are exactly those with balance > 0 and APR > 0 |
| Cards.HasValidCardsIffFiltered | src/features/DebtCalculator/hooks/useCalculatorReducer.ts:111-114 | some card has balance > 0 and APR > 0 exactly when the filtered list is non-empty |
| Cards.HasValidCards | src/features/DebtCalculator/hooks/useCalculatorReducer.ts:111-114 | some card has balance > 0 and APR > 0, which holds exactly when the validity filter is non-empty (Cards.HasValidCardsIffFiltered) |
| Constants.DefaultCards | src/features/DebtCalculator/constants/index.ts:4-9 | exactly two cards, 5000 at 22.99% and 3000 at 19.49%, unnamed, without payments, under the given ids |
| Constants.InitialState | src/features/DebtCalculator/constants/index.ts:11-20 | step 1, the default cards, loan APR 10, term 3 years, age 30, return 8, no credit score |
| Constants.InitialStateInRange | src/features/DebtCalculator/constants/index.ts:22-30 | initial APR, term and age lie in their ranges; the APR is on a slider step; the return is one of the options |
| Constants.InitialStateHasValidCards | src/features/DebtCalculator/constants/index.ts:6-7 | both initial cards are valid |
| CalculatorReducer.Reduce | src/features/DebtCalculator/hooks/useCalculatorReducer.ts:11-62 | per action: ADD_CARD appends one blank card; REMOVE_CARD is RemoveCard of the list, so exactly the other ids are kept and, by Cards.RemoveDistributes, in their original order; UPDATE_CARD changes only matching cards; each setter changes only its own field, with no range check; SET_CREDIT_SCORE changes nothing; RESET gives the initial state |
| CalculatorReducer.AddThenRemoveRestores | src/features/DebtCalculator/hooks/useCalculatorReducer.ts:16-29 | ADD_CARD with a fresh id followed by REMOVE_CARD of it restores the state |
| CalculatorReducer.RemoveIdempotent | src/features/DebtCalculator/hooks/useCalculatorReducer.ts:25-29 | REMOVE_CARD twice equals once |
| CalculatorReducer.UpdateTwiceIsOnce | src/features/DebtCalculator/hooks/useCalculatorReducer.ts:31-39 | UPDATE_CARD twice equals once unless it re-keys the cards |
| CalculatorReducer.ResetForgetsState | src/features/DebtCalculator/hooks/useCalculatorReducer.ts:56-57 | RESET gives the same state from any prior state, and that state has valid cards |
| CalculatorReducer.SettersKeepCards | src/features/DebtCalculator/hooks/useCalculatorReducer.ts:41-60 | the setters and the unhandled credit-score action leave the card list, and so hasValidCards, unchanged |
| CalculatorReducer.CardActionsAndValidity | src/features/DebtCalculator/hooks/useCalculatorReducer.ts:16-29 | removal never creates a valid card; adding a blank card never changes whether one exists |
| Aggregation.TotalBalancePositive | src/features/DebtCalculator/hooks/useDebtCalculations.ts:34 | the sum of a non-empty list of positive balances is positive |
| Aggregation.TotalBalance | src/features/DebtCalculator/hooks/useDebtCalculations.ts:34 | the left fold of the balances, positive for a non-empty list of positive balances (Aggregation.TotalBalancePositive); debt-calculator.jsx:617 does the same |
| Aggregation.AprWeightedSum | src/features/DebtCalculator/hooks/useDebtCalculations.ts:35-36 | the left fold of apr·balance, between lo and hi times TotalBalance when every APR lies in [lo, hi] (Aggregation.WeightedSumBetween); debt-calculator.jsx:618-619 does the same |
| Aggregation.TotalPayment | src/features/DebtCalculator/hooks/useDebtCalculations.ts:39-42 | the left fold of each card's payment, which depends only on the payments of the cards in the list (Aggregation.TotalPaymentCongruent); debt-calculator.jsx:620-623 does the same |
| Aggregation.WeightedSumBetween | src/features/DebtCalculator/hooks/useDebtCalculations.ts:35-36 | with positive balances, the sum of apr times balance lies between lo and hi times the total balance |
| Aggregation.QuotientBetween | src/features/DebtCalculator/hooks/useDebtCalculations.ts:35-36 | dividing by the positive total keeps the weighted APR between lo and hi |
| Aggregation.WeightedAprBetween | src/features/DebtCalculator/hooks/useDebtCalculations.ts:34-36 | for positive balances, the balance-weighted APR lies between any bounds on the APRs |
| Aggregation.InterestOf | src/features/DebtCalculator/hooks/useDebtCalculations.ts:53 | a card's reported interest is Infinity exactly when its payoff diverges |
| Aggregation.MonthsOf | src/features/DebtCalculator/hooks/useDebtCalculations.ts:54 | a card's reported months are Infinity exactly when its payoff diverges |
| Aggregation.PayoffsOf | debt-calculator.jsx:627-632 | each valid card's payoff, in order |
| Aggregation.InterestTotal | src/features/DebtCalculator/hooks/useDebtCalculations.ts:44-53 | `totalInterest += result.totalInterest` from 0: Infinity exactly when some payoff is (Aggregation.InterestTotalInfinite), non-negative when every payoff is finite with non-negative interest (Aggregation.InterestTotalNonNegative); debt-calculator.jsx:625-633 does the same |
| Aggregation.MonthsMax | src/features/DebtCalculator/hooks/useDebtCalculations.ts:45-54 | `Math.max(maxMonths, result.months)` from 0: Infinity exactly when some payoff is, otherwise an upper bound on every card's months that is 0 or attained (Aggregation.MonthsMaxIsLongest); debt-calculator.jsx:626-634 does the same |
| Aggregation.InterestTotalInfinite | debt-calculator.jsx:625-633 | the summed interest is Infinity exactly when some card diverges |
| Aggregation.InterestTotalNonNegative | debt-calculator.jsx:625-633 | finite payoffs with non-negative interest sum to a non-negative number |
| Aggregation.MonthsMaxIsLongest | debt-calculator.jsx:626-634 | the months are Infinity exactly when some card diverges; otherwise they are at least every card's months, and either 0 or some card's months |
| Aggregation.Summary | src/features/DebtCalculator/hooks/useDebtCalculations.ts:20-65 | the summary's card list is the valid cards |
| Aggregation.SummaryEmptyIff | src/features/DebtCalculator/hooks/useDebtCalculations.ts:21-32 | without a valid card every figure is 0 and the list is empty; with one the total balance is positive; both directions; the single-file component does the same at debt-calculator.jsx:606-615 |
| Aggregation.SummaryWeightedAprBetween | src/features/DebtCalculator/hooks/useDebtCalculations.ts:34-36 | with at least one valid card, the weighted APR lies between any bounds on the valid APRs, so between their minimum and maximum; the single-file component does the same at debt-calculator.jsx:617-619 |
| Aggregation.SummaryDiverges | src/features/DebtCalculator/hooks/useDebtCalculations.ts:44-55 | total interest and months are Infinity exactly when some valid card diverges; finite months bound every card's months |
| Aggregation.SummaryInterestNonNegative | debt-calculator.jsx:625-635 | when every valid card's payoff is finite with non-negative interest, the summed interest is a non-negative number, not Infinity; with Calculations.MinPaymentConverges and Calculations.PayoffInterestNonNegative this covers the single-file summary whenever every valid card is under 24% APR |
| Aggregation.SummaryCongruent | src/features/DebtCalculator/hooks/useDebtCalculations.ts:20-65 | payment and payoff rules that agree on the valid cards give equal summaries |
| Aggregation.TotalPaymentCongruent | src/features/DebtCalculator/hooks/useDebtCalculations.ts:39-42 | payment rules that agree on every card give equal payment totals |
| Aggregation.Consolidate | src/features/DebtCalculator/hooks/useDebtCalculations.ts:67-91 | null exactly when the total balance is <= 0; otherwise the term is years times 12; the loan's payment and interest are on the whole balance; savings are unclamped differences, and interest saved is Infinity exactly when the card interest is; the single-file component does the same at debt-calculator.jsx:647-671 |
| Aggregation.ConsolidationRetiresBalance | src/features/DebtCalculator/hooks/useDebtCalculations.ts:70-80 | the consolidation payment retires the whole balance in exactly its term, and its interest is what that schedule charges |
| Aggregation.ConsolidationCanLose | src/features/DebtCalculator/hooks/useDebtCalculations.ts:81 | against interest-free cards, a loan at a positive rate gives a negative saving; nothing clamps it |
| Aggregation.YearsToInvest | src/features/DebtCalculator/hooks/useDebtCalculations.ts:115-118 | the horizon is max(TARGET_AGE - age - term, 1), so at least 1 |
| Aggregation.InvestmentData | src/features/DebtCalculator/hooks/useDebtCalculations.ts:111-125 | present exactly when there is a consolidation with a positive (or Infinity) saving; the deposit is the loan payment and the horizon is YearsToInvest; the single-file component does the same at debt-calculator.jsx:673-680 |
| Aggregation.InvestmentDataShape | src/features/DebtCalculator/hooks/useDebtCalculations.ts:114-124 | a shown projection has YearsToInvest >= 1 points; the first is year 1 and invests twelve loan payments |
| Aggregation.DivergingCardShowsProjection | debt-calculator.jsx:673-680 | a diverging card makes the saving Infinity, so the projection is shown |
| LegacyCalculator.LegacyPayment | debt-calculator.jsx:620-623 | each card's payment is at least $25 and at least 2% of its balance |
| LegacyCalculator.LegacyPayoff | debt-calculator.jsx:628-632 | each card runs the payoff loop at the minimum of its starting balance: Infinity at APR >= 24 with balance >= 1250 (Calculations.MinPaymentDiverges), finite below 24% (Calculations.MinPaymentConverges) |
| LegacyCalculator.LegacyDebtSummary | debt-calculator.jsx:605-645 | the memo, with its forEach accumulation, computes the summary in which each card pays the minimum of its starting balance |
| LegacyCalculator.LegacySummaryDiverges | debt-calculator.jsx:627-635 | a valid card at APR >= 24 with balance >= 1250 makes interest and months Infinity; all valid APRs below 24 keep both finite |
| LegacyCalculator.LegacyInitialState | debt-calculator.jsx:563-571 | the component starts with two unnamed cards without a payment, 5000 at 22.99% and 3000 at 19.49%, at least one of them valid, and with step 1, loan APR 10, term 3, age 30 and return 8 |
| LegacyCalculator.LegacyHasValidCardsAgrees | debt-calculator.jsx:682-683 | the filter-length test agrees with the reducer hook's some test |
| LegacyCalculator.LegacyHasValidCards | debt-calculator.jsx:682-683 | at least one card passes the validity filter, which holds exactly when the hook's `some` test does (LegacyCalculator.LegacyHasValidCardsAgrees) |
| LegacyCalculator.HandleReset | debt-calculator.jsx:685-694 | reset leaves exactly one blank card and sets step 1, loan APR 10, term 3, age 30, return 8 |
| LegacyCalculator.ResetLeavesNothingToSummarise | debt-calculator.jsx:685-694 | after reset there is no valid card and the summary is empty; the settings match the starting ones |
| DebtCalculations.HookDebtSummary | src/features/DebtCalculator/hooks/useDebtCalculations.ts:20-65 | the memo, with its forEach accumulation, computes the summary: own payment when positive, else the computed minimum; the payment is passed on only when positive |
| DebtCalculations.HookPayment | src/features/DebtCalculator/hooks/useDebtCalculations.ts:39-42 | a card's own payment when it is positive, otherwise the two-argument minimum; a payment <= 0 falls back to the minimum (DebtCalculations.NonPositivePaymentIsNone) and with every payment positive the minimum plays no part (DebtCalculations.OwnPaymentsIgnoreMinimum) |
| DebtCalculations.HookPayoff | src/features/DebtCalculator/hooks/useDebtCalculations.ts:47-52 | the dynamic payoff of balance and APR, handed the card's payment only when it is positive (DebtCalculations.NonPositivePaymentIsNone) |
| DebtCalculations.OwnPaymentsIgnoreMinimum | src/features/DebtCalculator/hooks/useDebtCalculations.ts:39-42 | when every valid card has a positive payment, the minimum-payment function does not affect the summary |
| DebtCalculations.NonPositivePaymentIsNone | src/features/DebtCalculator/hooks/useDebtCalculations.ts:48-52 | a zero or negative card payment is handed on as no payment, and the minimum is used for the total |
| DebtCalculations.HookMatchesLegacy | src/features/DebtCalculator/hooks/useDebtCalculations.ts:20-65 | without card payments, and with payoff and minimum rules that agree with the single-file component's, the two summaries are equal |
| DebtCalculations.TermsOf | src/features/DebtCalculator/hooks/useDebtCalculations.ts:96-102 | each valid card maps to its balance, APR and payment, in order |
| DebtCalculations.DebtPayoffData | src/features/DebtCalculator/hooks/useDebtCalculations.ts:93-109 | empty whenever total balance <= 0 or there is no consolidation; otherwise the timeline of the valid cards over the loan term in months |
| DebtCalculations.PayoffDataNeedsValidCard | src/features/DebtCalculator/hooks/useDebtCalculations.ts:93-94 | inside the hook, no valid card gives an empty chart; with one, the chart is the timeline of the valid cards over the loan term in months |

## Left out

- Presentation is not modelled: React rendering, layout, charts, animation,
  timers, scrolling, number formatting and the `label` strings.
- `generateId()` draws on `Math.random`; ids are parameters instead.
- IEEE-754 rounding, NaN and overflow are not modelled. Money and rates are
  exact reals, and the JavaScript `Infinity` appears only where the payoff
  loop returns it.
- `calcMinPayment(balance, apr)` with two arguments,
  `calcCreditCardPayoffDynamic` and `calcDebtPayoffTimeline` are not part of
  this model. They are function parameters. Their parameter types carry three
  assumptions:
- DebtCalculations.HookPayoff: assumes `calcCreditCardPayoffDynamic` returns a
  `Payoff`: a whole number of months with finite interest, or Infinity for
  both at once. For the hook, `Aggregation.SummaryDiverges`'s "interest is
  Infinity exactly when months are" rests on that coupling. A function that
  made only one of the two Infinity is not modelled.
- DebtCalculations.HookPayment: assumes the two-argument `calcMinPayment`
  returns a finite real. Infinity or NaN from it is not modelled.
- DebtCalculations.TermsOf: hands the timeline 0 for a card without a
  `monthlyPayment`. The source hands on `undefined` for cards built without
  one (`src/features/DebtCalculator/constants/index.ts:6-7`,
  `src/features/DebtCalculator/hooks/useCalculatorReducer.ts:21`). A timeline
  function that treats `undefined` differently from 0 (for example with `??`)
  is not modelled. Zero is faithful only for the `> 0` tests in the hook.
- Calculations.LoanPayment: requires a term and rate at which the formula is
  finite (`LoanDefined`), and so does Calculations.LoanTotalInterest, which
  calls it. A 0% loan over 0 months, or `(1+r)^n = 1`, would
  give Infinity or NaN in JavaScript. The UI's term slider starts at 1 year.
- Aggregation.Consolidate: carries the same requirement for a positive total
  balance, for the same reason.
- Calculations.PayoffUnboundedIff: stated for APR >= 0 only. The loop is not
  characterised at negative APRs.
- Calculations.MinPaymentConverges: stated for APR >= 0 only, for the same
  reason.
- Types.CalculatorState: loanTermYears is a natural number and userAge an
  integer. The controls only produce whole values; fractional terms are not
  modelled.
- Cards.ApplyUpdate: each field takes a value of its own type. The source
  allows any string or number in any field.
- Input parsing and UI clamping are not modelled: numeric inputs, the age
  clamp and slider ranges. The reducer itself checks no range, and the model
  shows that.
- Step gating and credit-score selection are left out. The reducer has no
  case for the credit-score action, so it returns the state unchanged, as
  `CalculatorReducer.Reduce` states. The hook does not expose a setter for
  it either.
