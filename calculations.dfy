/** The financial helpers of the calculator: the credit-card minimum payment,
    the fixed-payment payoff simulation, the amortizing-loan payment and its
    total interest, and the yearly investment-growth series. The single-file
    component repeats the same helpers line for line, so this module models
    both copies. */
module Calculations {
  import opened Arith

  /** The payoff simulation gives up after this many months. */
  const MaxPayoffMonths: nat := 600

  /** `apr / 100 / 12`: an annual percentage as a monthly fraction. */
  function MonthlyRate(apr: real): (r: real)
    ensures r == 0.0 <==> apr == 0.0
    ensures r >= 0.0 <==> apr >= 0.0
  {
    apr / 100.0 / 12.0
  }

  // ---------------------------------------------------------------------------
  // Minimum payment

  /** The minimum card payment: 2% of the balance, but never under $25. */
  function MinPayment(balance: real): (r: real)
    ensures r >= 25.0 && r >= balance * 0.02
    ensures r == 25.0 || r == balance * 0.02
  {
    Max(balance * 0.02, 25.0)
  }

  // ---------------------------------------------------------------------------
  // Credit-card payoff with a fixed monthly payment

  /** The outcome of the payoff loop: a month count with the interest paid,
      or the Infinity the loop returns once a payment stops covering the
      month's interest. */
  datatype Payoff = Finite(months: nat, totalInterest: real) | Unbounded

  /** The balance after paying `principal` off `remaining`, floored at zero. */
  function NextBalance(remaining: real, principal: real): (r: real)
    requires principal > 0.0
    ensures r >= 0.0
    ensures remaining > 0.0 ==> r < remaining
    ensures r == 0.0 || r == remaining - principal
  {
    Max(remaining - principal, 0.0)
  }

  /** What the payoff loop returns when it reaches its test with `remaining`
      still owed after `months` months and `interestSoFar` charged. */
  function PayoffFrom(remaining: real, rate: real, payment: real, months: nat, interestSoFar: real): Payoff
    requires months <= MaxPayoffMonths
    decreases MaxPayoffMonths - months
  {
    if remaining <= 0.01 || months >= MaxPayoffMonths then Finite(months, interestSoFar)
    else
      var interest := remaining * rate;
      var principal := Max(payment - interest, 0.0);
      if principal <= 0.0 then Unbounded
      else PayoffFrom(NextBalance(remaining, principal), rate, payment, months + 1, interestSoFar + interest)
  }

  /** The result of the payoff loop for a card. */
  function PayoffOf(balance: real, apr: real, payment: real): Payoff
  {
    PayoffFrom(balance, MonthlyRate(apr), payment, 0, 0.0)
  }

  /** The month-by-month payoff loop, early Infinity return included. */
  method CreditCardPayoff(balance: real, apr: real, monthlyPayment: real) returns (result: Payoff)
    ensures result == PayoffOf(balance, apr, monthlyPayment)
    ensures balance <= 0.01 ==> result == Finite(0, 0.0)
    ensures result.Finite? ==> result.months <= MaxPayoffMonths
  {
    var monthlyRate := MonthlyRate(apr);
    result := PayoffLoop(balance, monthlyRate, monthlyPayment);
    PayoffMonthsBounded(balance, monthlyRate, monthlyPayment, 0, 0.0);
  }

  /** The loop itself, once the monthly rate is known. */
  method PayoffLoop(balance: real, monthlyRate: real, monthlyPayment: real) returns (result: Payoff)
    ensures result == PayoffFrom(balance, monthlyRate, monthlyPayment, 0, 0.0)
  {
    var remaining := balance;
    var totalInterest := 0.0;
    var months: nat := 0;
    while remaining > 0.01 && months < MaxPayoffMonths
      invariant months <= MaxPayoffMonths
      invariant PayoffFrom(remaining, monthlyRate, monthlyPayment, months, totalInterest)
                == PayoffFrom(balance, monthlyRate, monthlyPayment, 0, 0.0)
      decreases MaxPayoffMonths - months
    {
      var interest := remaining * monthlyRate;
      totalInterest := totalInterest + interest;
      var principal := Max(monthlyPayment - interest, 0.0);
      if principal <= 0.0 {
        return Unbounded;
      }
      remaining := NextBalance(remaining, principal);
      months := months + 1;
    }
    result := Finite(months, totalInterest);
  }

  /** A finite payoff never reports more than the cap, nor fewer months
      than have already passed. */
  lemma {:induction false} PayoffMonthsBounded(remaining: real, rate: real, payment: real, months: nat, interestSoFar: real)
    requires months <= MaxPayoffMonths
    ensures PayoffFrom(remaining, rate, payment, months, interestSoFar).Finite? ==>
              months <= PayoffFrom(remaining, rate, payment, months, interestSoFar).months <= MaxPayoffMonths
    decreases MaxPayoffMonths - months
  {
    if remaining > 0.01 && months < MaxPayoffMonths {
      var interest := remaining * rate;
      var principal := Max(payment - interest, 0.0);
      if principal > 0.0 {
        PayoffMonthsBounded(NextBalance(remaining, principal), rate, payment, months + 1, interestSoFar + interest);
      }
    }
  }

  lemma MulMonotone(a: real, b: real, c: real)
    requires 0.0 <= a <= b && c >= 0.0
    ensures a * c <= b * c
  {
  }

  /** With a non-negative rate the interest charged never goes down. */
  lemma {:induction false} PayoffInterestGrows(remaining: real, rate: real, payment: real, months: nat, interestSoFar: real)
    requires months <= MaxPayoffMonths && rate >= 0.0
    ensures PayoffFrom(remaining, rate, payment, months, interestSoFar).Finite? ==>
              PayoffFrom(remaining, rate, payment, months, interestSoFar).totalInterest >= interestSoFar
    decreases MaxPayoffMonths - months
  {
    if remaining > 0.01 && months < MaxPayoffMonths {
      var interest := remaining * rate;
      MulMonotone(0.0, remaining, rate);
      var principal := Max(payment - interest, 0.0);
      if principal > 0.0 {
        PayoffInterestGrows(NextBalance(remaining, principal), rate, payment, months + 1, interestSoFar + interest);
      }
    }
  }

  /** A card at a non-negative APR never reports negative interest. */
  lemma PayoffInterestNonNegative(balance: real, apr: real, payment: real)
    requires apr >= 0.0
    ensures PayoffOf(balance, apr, payment).Finite? ==> PayoffOf(balance, apr, payment).totalInterest >= 0.0
  {
    PayoffInterestGrows(balance, MonthlyRate(apr), payment, 0, 0.0);
  }

  /** Once a payment beats the month's interest it beats every later month's
      interest too, since the balance only falls: the loop then ends finite. */
  lemma {:induction false} PayoffFiniteOnceCovered(remaining: real, rate: real, payment: real, months: nat, interestSoFar: real)
    requires months <= MaxPayoffMonths
    requires remaining >= 0.0 && rate >= 0.0
    requires remaining * rate < payment
    ensures PayoffFrom(remaining, rate, payment, months, interestSoFar).Finite?
    decreases MaxPayoffMonths - months
  {
    if remaining > 0.01 && months < MaxPayoffMonths {
      var interest := remaining * rate;
      var principal := Max(payment - interest, 0.0);
      assert principal > 0.0;
      var next := NextBalance(remaining, principal);
      MulMonotone(next, remaining, rate);
      PayoffFiniteOnceCovered(next, rate, payment, months + 1, interestSoFar + interest);
    }
  }

  /** For an outstanding balance at a non-negative APR, the payoff is
      Infinity exactly when the payment does not exceed the first month's
      interest. */
  lemma PayoffUnboundedIff(balance: real, apr: real, payment: real)
    requires balance > 0.01 && apr >= 0.0
    ensures PayoffOf(balance, apr, payment).Unbounded? <==> payment <= balance * MonthlyRate(apr)
  {
    PayoffUnboundedIffAtRate(balance, MonthlyRate(apr), payment);
  }

  lemma PayoffUnboundedIffAtRate(balance: real, rate: real, payment: real)
    requires balance > 0.01 && rate >= 0.0
    ensures PayoffFrom(balance, rate, payment, 0, 0.0).Unbounded? <==> payment <= balance * rate
  {
    if payment > balance * rate {
      PayoffFiniteOnceCovered(balance, rate, payment, 0, 0.0);
    }
  }

  /** A monthly rate of 2% or more eats the whole 2% minimum once that
      minimum is above $25. */
  lemma MinPaymentBelowInterest(balance: real, rate: real)
    requires rate >= 0.02 && balance >= 1250.0
    ensures MinPayment(balance) <= balance * rate
  {
    MulMonotone(0.02, rate, balance);
  }

  /** A monthly rate under 2% leaves part of the minimum for principal. */
  lemma MinPaymentAboveInterest(balance: real, rate: real)
    requires 0.0 <= rate < 0.02 && balance > 0.0
    ensures MinPayment(balance) > balance * rate
  {
    var share := balance * 0.02 - balance * rate;
    assert share == (0.02 - rate) * balance;
    assert share > 0.0;
  }

  /** At an APR of 24% or more the monthly rate is at least 2%, so once the
      2% minimum exceeds $25 it can never beat the first month's interest:
      paying only the minimum never retires the card. */
  lemma MinPaymentDiverges(balance: real, apr: real)
    requires apr >= 24.0 && balance >= 1250.0
    ensures PayoffOf(balance, apr, MinPayment(balance)).Unbounded?
  {
    MinPaymentBelowInterest(balance, MonthlyRate(apr));
    PayoffUnboundedIffAtRate(balance, MonthlyRate(apr), MinPayment(balance));
  }

  /** Below 24% the 2% minimum always beats the first month's interest, so
      paying the minimum always ends within the cap. */
  lemma MinPaymentConverges(balance: real, apr: real)
    requires 0.0 <= apr < 24.0
    ensures PayoffOf(balance, apr, MinPayment(balance)).Finite?
  {
    ConvergesBelowTwoPercent(balance, MonthlyRate(apr));
  }

  lemma ConvergesBelowTwoPercent(balance: real, rate: real)
    requires 0.0 <= rate < 0.02
    ensures PayoffFrom(balance, rate, MinPayment(balance), 0, 0.0).Finite?
  {
    if balance > 0.01 {
      MinPaymentAboveInterest(balance, rate);
      PayoffUnboundedIffAtRate(balance, rate, MinPayment(balance));
    }
  }

  // ---------------------------------------------------------------------------
  // Fixed-rate amortizing loan

  /** The arguments for which the loan formula yields a finite number: a
      zero rate needs a non-zero term, and otherwise `(1 + r)^n - 1` must not
      vanish. */
  predicate LoanDefined(apr: real, termMonths: nat)
  {
    if MonthlyRate(apr) == 0.0 then termMonths != 0
    else Pow(1.0 + MonthlyRate(apr), termMonths) != 1.0
  }

  /** The level monthly payment of a fixed-rate loan; straight division at 0%. */
  function LoanPayment(principal: real, apr: real, termMonths: nat): real
    requires LoanDefined(apr, termMonths)
  {
    var r := MonthlyRate(apr);
    if r == 0.0 then principal / termMonths as real
    else principal * r * Pow(1.0 + r, termMonths) / (Pow(1.0 + r, termMonths) - 1.0)
  }

  /** Total interest on the loan: everything paid minus the principal. */
  function LoanTotalInterest(principal: real, apr: real, termMonths: nat): real
    requires LoanDefined(apr, termMonths)
  {
    LoanPayment(principal, apr, termMonths) * termMonths as real - principal
  }

  /** At 0% the payment is the principal split evenly over the term, and
      the loan costs no interest. */
  lemma LoanAtZeroRate(principal: real, termMonths: nat)
    requires termMonths >= 1
    ensures LoanDefined(0.0, termMonths)
    ensures LoanPayment(principal, 0.0, termMonths) * termMonths as real == principal
    ensures LoanTotalInterest(principal, 0.0, termMonths) == 0.0
  {
  }

  /** The loan balance after `k` months of interest at monthly rate `r` and
      one `payment` each month. */
  function Amortize(principal: real, r: real, payment: real, k: nat): real
  {
    if k == 0 then principal else Amortize(principal, r, payment, k - 1) * (1.0 + r) - payment
  }

  /** The interest charged over the first `k` months of that schedule. */
  function ScheduleInterest(principal: real, r: real, payment: real, k: nat): real
  {
    if k == 0 then 0.0
    else ScheduleInterest(principal, r, payment, k - 1) + Amortize(principal, r, payment, k - 1) * r
  }

  /** Paid minus repaid: the interest charged so far is what was paid in,
      less the principal retired. */
  lemma {:induction false} ScheduleInterestTelescopes(principal: real, r: real, payment: real, k: nat)
    ensures ScheduleInterest(principal, r, payment, k)
            == payment * k as real + Amortize(principal, r, payment, k) - principal
  {
    if k > 0 {
      ScheduleInterestTelescopes(principal, r, payment, k - 1);
      var b := Amortize(principal, r, payment, k - 1);
      assert b + b * r == b * (1.0 + r);
    }
  }

  /** A schedule that ends at zero charged, in interest, everything paid in
      beyond the principal. */
  lemma RetiredScheduleInterest(principal: real, r: real, payment: real, k: nat)
    requires Amortize(principal, r, payment, k) == 0.0
    ensures ScheduleInterest(principal, r, payment, k) == payment * k as real - principal
  {
    ScheduleInterestTelescopes(principal, r, payment, k);
  }

  /** At 0% the balance falls by one payment a month. */
  lemma {:induction false} AmortizeAtZeroRate(principal: real, payment: real, k: nat)
    ensures Amortize(principal, 0.0, payment, k) == principal - k as real * payment
  {
    if k > 0 {
      AmortizeAtZeroRate(principal, payment, k - 1);
    }
  }

  /** The closed form of the schedule: with X = (1 + r)^n and a payment p
      with p (X - 1) = P r X, the balance after k months, times X - 1, is
      P (X - (1 + r)^k). */
  lemma {:induction false} AmortizeClosedForm(principal: real, r: real, payment: real, bigX: real, d: real, k: nat)
    requires d == bigX - 1.0 && payment * d == principal * r * bigX
    ensures Amortize(principal, r, payment, k) * d == principal * (bigX - Pow(1.0 + r, k))
  {
    if k > 0 {
      AmortizeClosedForm(principal, r, payment, bigX, d, k - 1);
      AmortizeClosedFormStep(principal, r, payment, bigX, d, k);
    }
  }

  /** One month of the closed form: from month k - 1 to month k. */
  lemma AmortizeClosedFormStep(principal: real, r: real, payment: real, bigX: real, d: real, k: nat)
    requires k > 0
    requires d == bigX - 1.0 && payment * d == principal * r * bigX
    requires Amortize(principal, r, payment, k - 1) * d == principal * (bigX - Pow(1.0 + r, k - 1))
    ensures Amortize(principal, r, payment, k) * d == principal * (bigX - Pow(1.0 + r, k))
  {
    AmortizeStepAlgebra(Amortize(principal, r, payment, k - 1), Amortize(principal, r, payment, k),
                        d, 1.0 + r, r, payment, principal, bigX, Pow(1.0 + r, k - 1), Pow(1.0 + r, k));
  }

  /** The algebra of one month of the closed form, kept apart from the
      recursive definitions so that the solver sees plain products. */
  lemma AmortizeStepAlgebra(b: real, next: real, d: real, x: real, r: real, p: real, principal: real,
                            bigX: real, xk: real, xNext: real)
    requires b * d == principal * (bigX - xk) && p * d == principal * r * bigX && x == 1.0 + r
    requires next == b * x - p && xNext == x * xk
    ensures next * d == principal * (bigX - xNext)
  {
    calc {
      next * d;
      (b * x - p) * d;
      (b * d) * x - p * d;
      principal * (bigX - xk) * x - principal * r * bigX;
      principal * (bigX * (x - r) - x * xk);
    }
  }

  /** The level payment solves p (X - 1) = P r X. */
  lemma LoanPaymentEquation(principal: real, apr: real, termMonths: nat)
    requires LoanDefined(apr, termMonths) && apr != 0.0
    ensures var r := MonthlyRate(apr);
            LoanPayment(principal, apr, termMonths) * (Pow(1.0 + r, termMonths) - 1.0)
            == principal * r * Pow(1.0 + r, termMonths)
  {
  }

  /** The level payment retires the loan: after `termMonths` months of
      `balance := balance * (1 + r) - payment` nothing is owed. */
  lemma LoanPaymentRetiresLoan(principal: real, apr: real, termMonths: nat)
    requires LoanDefined(apr, termMonths)
    ensures Amortize(principal, MonthlyRate(apr), LoanPayment(principal, apr, termMonths), termMonths) == 0.0
  {
    if apr == 0.0 {
      LoanAtZeroRate(principal, termMonths);
      AmortizeAtZeroRate(principal, LoanPayment(principal, apr, termMonths), termMonths);
    } else {
      RetiresAtPositiveRate(principal, apr, termMonths);
    }
  }

  lemma RetiresAtPositiveRate(principal: real, apr: real, termMonths: nat)
    requires LoanDefined(apr, termMonths) && apr != 0.0
    ensures Amortize(principal, MonthlyRate(apr), LoanPayment(principal, apr, termMonths), termMonths) == 0.0
  {
    var r := MonthlyRate(apr);
    var payment := LoanPayment(principal, apr, termMonths);
    var bigX := Pow(1.0 + r, termMonths);
    LoanPaymentEquation(principal, apr, termMonths);
    AmortizeClosedForm(principal, r, payment, bigX, bigX - 1.0, termMonths);
    ZeroFactor(Amortize(principal, r, payment, termMonths), bigX - 1.0);
  }

  lemma ZeroFactor(a: real, d: real)
    requires d != 0.0 && a * d == 0.0
    ensures a == 0.0
  {
  }

  /** The loan's total interest is exactly the interest its schedule charges
      month by month. */
  lemma LoanInterestIsScheduleInterest(principal: real, apr: real, termMonths: nat)
    requires LoanDefined(apr, termMonths)
    ensures LoanTotalInterest(principal, apr, termMonths)
            == ScheduleInterest(principal, MonthlyRate(apr), LoanPayment(principal, apr, termMonths), termMonths)
  {
    LoanPaymentRetiresLoan(principal, apr, termMonths);
    RetiredScheduleInterest(principal, MonthlyRate(apr), LoanPayment(principal, apr, termMonths), termMonths);
  }

  lemma PositiveFactor(a: real, d: real)
    requires d > 0.0 && a * d > 0.0
    ensures a > 0.0
  {
    if a <= 0.0 {
      MulMonotone(0.0, d, -a);
    }
  }

  /** Under a positive rate every month before the last starts with a
      positive balance. */
  lemma AmortizeStaysPositive(principal: real, apr: real, n: nat, k: nat)
    requires apr > 0.0 && principal > 0.0 && k < n
    ensures LoanDefined(apr, n)
    ensures Amortize(principal, MonthlyRate(apr), LoanPayment(principal, apr, n), k) > 0.0
  {
    var r := MonthlyRate(apr);
    var x := 1.0 + r;
    PowAboveOne(x, n);
    PowStrictlyIncreasing(x, k, n);
    var payment := LoanPayment(principal, apr, n);
    LoanPaymentEquation(principal, apr, n);
    AmortizeClosedForm(principal, r, payment, Pow(x, n), Pow(x, n) - 1.0, k);
    var gap := Pow(x, n) - Pow(x, k);
    var b := Amortize(principal, r, payment, k);
    assert b * (Pow(x, n) - 1.0) == principal * gap;
    assert principal * gap > 0.0;
    PositiveFactor(b, Pow(x, n) - 1.0);
  }

  lemma {:induction false} ScheduleInterestPositive(principal: real, apr: real, n: nat, k: nat)
    requires apr > 0.0 && principal > 0.0 && 1 <= k <= n
    ensures LoanDefined(apr, n)
    ensures ScheduleInterest(principal, MonthlyRate(apr), LoanPayment(principal, apr, n), k) > 0.0
  {
    var r := MonthlyRate(apr);
    PowAboveOne(1.0 + r, n);
    var payment := LoanPayment(principal, apr, n);
    AmortizeStaysPositive(principal, apr, n, k - 1);
    var b := Amortize(principal, r, payment, k - 1);
    assert b * r > 0.0;
    if k > 1 {
      ScheduleInterestPositive(principal, apr, n, k - 1);
    }
  }

  /** A loan at a positive rate with a positive principal and term costs
      strictly positive interest. */
  lemma LoanInterestPositive(principal: real, apr: real, termMonths: nat)
    requires apr > 0.0 && principal > 0.0 && termMonths >= 1
    ensures LoanDefined(apr, termMonths)
    ensures LoanTotalInterest(principal, apr, termMonths) > 0.0
  {
    PowAboveOne(1.0 + MonthlyRate(apr), termMonths);
    LoanInterestIsScheduleInterest(principal, apr, termMonths);
    ScheduleInterestPositive(principal, apr, termMonths, termMonths);
  }

  // ---------------------------------------------------------------------------
  // Investment growth

  /** One yearly point of the investment chart (its text label is left out). */
  datatype InvestmentPoint = InvestmentPoint(year: int, invested: int, growth: int, total: int)

  /** The balance after `k` monthly deposits, each month compounding first. */
  function GrownBalance(deposit: real, rate: real, k: nat): real
  {
    if k == 0 then 0.0 else GrownBalance(deposit, rate, k - 1) * (1.0 + rate) + deposit
  }

  /** The running total of `k` deposits, summed one month at a time. */
  function Deposited(deposit: real, k: nat): (total: real)
    ensures deposit >= 0.0 ==> total >= 0.0
  {
    if k == 0 then 0.0 else Deposited(deposit, k - 1) + deposit
  }

  /** The rounded point emitted at the end of year `y`. */
  function YearPoint(deposit: real, rate: real, y: nat): InvestmentPoint
  {
    var deposits := Deposited(deposit, 12 * y);
    var balance := GrownBalance(deposit, rate, 12 * y);
    InvestmentPoint(y, Round(deposits), Round(balance - deposits), Round(balance))
  }

  /** The points for years 1 through `years` at monthly rate `rate`. */
  function SeriesAtRate(deposit: real, rate: real, years: int): seq<InvestmentPoint>
  {
    if years < 1 then [] else SeriesAtRate(deposit, rate, years - 1) + [YearPoint(deposit, rate, years)]
  }

  /** The investment chart for a monthly deposit, an annual return in
      percent and a number of years. */
  function InvestmentSeries(deposit: real, annualReturn: real, years: int): seq<InvestmentPoint>
  {
    SeriesAtRate(deposit, MonthlyRate(annualReturn), years)
  }

  /** The investment growth computation: it fixes the monthly rate and runs
      the compounding loops. */
  method InvestmentGrowth(monthlyDeposit: real, annualReturn: real, years: int) returns (data: seq<InvestmentPoint>)
    ensures data == InvestmentSeries(monthlyDeposit, annualReturn, years)
  {
    var monthlyRate := MonthlyRate(annualReturn);
    data := GrowthLoops(monthlyDeposit, monthlyRate, years);
  }

  /** The nested year/month loops: compound, deposit, and emit one rounded
      point at the end of each year. */
  method GrowthLoops(monthlyDeposit: real, monthlyRate: real, years: int) returns (data: seq<InvestmentPoint>)
    ensures data == SeriesAtRate(monthlyDeposit, monthlyRate, years)
  {
    data := [];
    var balance := 0.0;
    var totalDeposits := 0.0;
    var y := 1;
    while y <= years
      invariant 1 <= y <= (if years < 1 then 1 else years + 1)
      invariant data == SeriesAtRate(monthlyDeposit, monthlyRate, y - 1)
      invariant balance == GrownBalance(monthlyDeposit, monthlyRate, 12 * (y - 1))
      invariant totalDeposits == Deposited(monthlyDeposit, 12 * (y - 1))
    {
      var m := 0;
      while m < 12
        invariant 0 <= m <= 12
        invariant balance == GrownBalance(monthlyDeposit, monthlyRate, 12 * (y - 1) + m)
        invariant totalDeposits == Deposited(monthlyDeposit, 12 * (y - 1) + m)
      {
        balance := balance * (1.0 + monthlyRate) + monthlyDeposit;
        totalDeposits := totalDeposits + monthlyDeposit;
        m := m + 1;
      }
      data := data + [InvestmentPoint(y, Round(totalDeposits), Round(balance - totalDeposits), Round(balance))];
      y := y + 1;
    }
  }

  /** Summing deposits one at a time gives `k` times the deposit. */
  lemma {:induction false} DepositedIsProduct(deposit: real, k: nat)
    ensures Deposited(deposit, k) == k as real * deposit
  {
    if k > 0 {
      DepositedIsProduct(deposit, k - 1);
    }
  }

  /** One point per year 1..years in order, none when years < 1. */
  lemma {:induction false} SeriesAtRatePoints(deposit: real, rate: real, years: int)
    ensures |SeriesAtRate(deposit, rate, years)| == if years < 1 then 0 else years
    ensures forall i :: 0 <= i < |SeriesAtRate(deposit, rate, years)| ==>
              SeriesAtRate(deposit, rate, years)[i] == YearPoint(deposit, rate, i + 1)
    decreases if years < 1 then 0 else years
  {
    if years >= 1 {
      SeriesAtRatePoints(deposit, rate, years - 1);
    }
  }

  /** With non-negative deposits and rate the balance never falls below
      what was deposited. */
  lemma {:induction false} GrownCoversDeposits(deposit: real, rate: real, k: nat)
    requires deposit >= 0.0 && rate >= 0.0
    ensures GrownBalance(deposit, rate, k) >= Deposited(deposit, k)
  {
    if k > 0 {
      GrownCoversDeposits(deposit, rate, k - 1);
      var b := GrownBalance(deposit, rate, k - 1);
      MulMonotone(0.0, b, rate);
      assert b * (1.0 + rate) == b + b * rate;
    }
  }

  /** With non-negative deposits and rate the balance never falls. */
  lemma {:induction false} GrownMonotone(deposit: real, rate: real, j: nat, k: nat)
    requires deposit >= 0.0 && rate >= 0.0 && j <= k
    ensures GrownBalance(deposit, rate, j) <= GrownBalance(deposit, rate, k)
    decreases k - j
  {
    if j < k {
      GrownMonotone(deposit, rate, j, k - 1);
      var b := GrownBalance(deposit, rate, k - 1);
      GrownCoversDeposits(deposit, rate, k - 1);
      MulMonotone(0.0, b, rate);
      assert b * (1.0 + rate) == b + b * rate;
    }
  }

  /** With a non-negative deposit the running total of deposits never falls. */
  lemma {:induction false} DepositedMonotone(deposit: real, j: nat, k: nat)
    requires deposit >= 0.0 && j <= k
    ensures Deposited(deposit, j) <= Deposited(deposit, k)
    decreases k - j
  {
    if j < k {
      DepositedMonotone(deposit, j, k - 1);
    }
  }

  /** Year points at a non-negative rate: invested and total never fall from
      one year to a later one, growth is never negative, and the total is
      never below the amount invested. */
  lemma YearPointsOrdered(deposit: real, rate: real, y: nat, z: nat)
    requires deposit >= 0.0 && rate >= 0.0 && y <= z
    ensures YearPoint(deposit, rate, y).invested <= YearPoint(deposit, rate, z).invested
    ensures YearPoint(deposit, rate, y).total <= YearPoint(deposit, rate, z).total
    ensures YearPoint(deposit, rate, y).growth >= 0
    ensures YearPoint(deposit, rate, y).invested <= YearPoint(deposit, rate, y).total
  {
    var dy, dz := Deposited(deposit, 12 * y), Deposited(deposit, 12 * z);
    var gy, gz := GrownBalance(deposit, rate, 12 * y), GrownBalance(deposit, rate, 12 * z);
    DepositedMonotone(deposit, 12 * y, 12 * z);
    RoundMonotone(dy, dz);
    GrownMonotone(deposit, rate, 12 * y, 12 * z);
    RoundMonotone(gy, gz);
    GrownCoversDeposits(deposit, rate, 12 * y);
    RoundMonotone(0.0, gy - dy);
    RoundMonotone(dy, gy);
  }

  /** The chart has one point per year 1..years, in order, and year y
      reports round(12·y·deposit) as invested. */
  lemma InvestmentSeriesInvested(deposit: real, annualReturn: real, years: int, i: int)
    requires 0 <= i < |InvestmentSeries(deposit, annualReturn, years)|
    ensures |InvestmentSeries(deposit, annualReturn, years)| == years
    ensures InvestmentSeries(deposit, annualReturn, years)[i].year == i + 1
    ensures InvestmentSeries(deposit, annualReturn, years)[i].invested == Round((12 * (i + 1)) as real * deposit)
  {
    SeriesAtRatePoints(deposit, MonthlyRate(annualReturn), years);
    DepositedIsProduct(deposit, 12 * (i + 1));
  }

  /** The same four facts for the chart itself, at a non-negative annual
      return. */
  lemma InvestmentSeriesMonotone(deposit: real, annualReturn: real, years: int, i: int, j: int)
    requires deposit >= 0.0 && annualReturn >= 0.0
    requires 0 <= i <= j < |InvestmentSeries(deposit, annualReturn, years)|
    ensures InvestmentSeries(deposit, annualReturn, years)[i].invested <= InvestmentSeries(deposit, annualReturn, years)[j].invested
    ensures InvestmentSeries(deposit, annualReturn, years)[i].total <= InvestmentSeries(deposit, annualReturn, years)[j].total
    ensures InvestmentSeries(deposit, annualReturn, years)[i].growth >= 0
    ensures InvestmentSeries(deposit, annualReturn, years)[i].invested <= InvestmentSeries(deposit, annualReturn, years)[i].total
  {
    var rate := MonthlyRate(annualReturn);
    SeriesAtRatePoints(deposit, rate, years);
    YearPointsOrdered(deposit, rate, i + 1, j + 1);
  }
}
