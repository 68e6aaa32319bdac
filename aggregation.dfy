/** What the calculator derives from its state: the debt summary of the
    valid cards, the consolidation-loan comparison and the investment
    projection. The single-file component and the hook compute these the
    same way except for how a card's payment and payoff are found, which
    is why both are parameters here. */
module Aggregation {
  import opened Arith
  import opened Calculations
  import opened Types
  import opened Cards
  import opened Constants

  // ---------------------------------------------------------------------------
  // Sums over the valid cards (the `reduce` calls, folding from the left)

  function TotalBalance(cards: seq<CreditCard>): real
  {
    if |cards| == 0 then 0.0
    else TotalBalance(cards[..|cards| - 1]) + cards[|cards| - 1].balance
  }

  /** The total of a non-empty list of positive balances is positive. */
  lemma {:induction false} TotalBalancePositive(cards: seq<CreditCard>)
    requires |cards| > 0 && forall c :: c in cards ==> c.balance > 0.0
    ensures TotalBalance(cards) > 0.0
  {
    var init := cards[..|cards| - 1];
    assert cards[|cards| - 1] in cards;
    if |init| > 0 {
      assert forall c :: c in init ==> c in cards;
      TotalBalancePositive(init);
    }
  }

  /** Σ apr·balance, the numerator of the weighted APR. */
  function AprWeightedSum(cards: seq<CreditCard>): real
  {
    if |cards| == 0 then 0.0
    else AprWeightedSum(cards[..|cards| - 1]) + cards[|cards| - 1].apr * cards[|cards| - 1].balance
  }

  /** The sum of each card's monthly payment, as `paymentOf` finds it. */
  function TotalPayment(cards: seq<CreditCard>, paymentOf: CreditCard -> real): real
  {
    if |cards| == 0 then 0.0
    else TotalPayment(cards[..|cards| - 1], paymentOf) + paymentOf(cards[|cards| - 1])
  }

  /** a·b lies between lo·b and hi·b when a does and b is positive. */
  lemma ScaleBetween(a: real, b: real, lo: real, hi: real)
    requires lo <= a <= hi && b > 0.0
    ensures lo * b <= a * b <= hi * b
  {
    assert a * b - lo * b == (a - lo) * b;
    assert hi * b - a * b == (hi - a) * b;
  }

  /** Adding b to the total and a part between lo·b and hi·b to the sum
      keeps the sum between lo and hi times the total. */
  lemma BetweenStep(t: real, w: real, b: real, ab: real, lo: real, hi: real)
    requires lo * t <= w <= hi * t && lo * b <= ab <= hi * b
    ensures lo * (t + b) <= w + ab <= hi * (t + b)
  {
    assert lo * (t + b) == lo * t + lo * b;
    assert hi * (t + b) == hi * t + hi * b;
  }

  /** With positive balances, Σ apr·balance lies between lo·Σ balance and
      hi·Σ balance when every APR lies in [lo, hi]. */
  lemma {:induction false} WeightedSumBetween(cards: seq<CreditCard>, lo: real, hi: real)
    requires forall c :: c in cards ==> c.balance > 0.0 && lo <= c.apr <= hi
    ensures lo * TotalBalance(cards) <= AprWeightedSum(cards) <= hi * TotalBalance(cards)
  {
    if |cards| > 0 {
      var init, last := cards[..|cards| - 1], cards[|cards| - 1];
      var t, w, b, ab := TotalBalance(init), AprWeightedSum(init), last.balance, last.apr * last.balance;
      assert lo * t <= w <= hi * t by {
        assert forall c :: c in init ==> c in cards;
        WeightedSumBetween(init, lo, hi);
      }
      assert lo * b <= ab <= hi * b by {
        assert last in cards;
        ScaleBetween(last.apr, last.balance, lo, hi);
      }
      BetweenStep(t, w, b, ab, lo, hi);
      assert TotalBalance(cards) == t + b;
      assert AprWeightedSum(cards) == w + ab;
    }
  }

  /** A factor of a non-negative product with a positive factor is
      non-negative. */
  lemma NonNegativeFactor(a: real, t: real)
    requires t > 0.0 && a * t >= 0.0
    ensures a >= 0.0
  {
    assert a == (a * t) / t;
  }

  lemma QuotientBetween(w: real, t: real, lo: real, hi: real)
    requires t > 0.0 && lo * t <= w <= hi * t
    ensures lo <= w / t <= hi
  {
    var q := w / t;
    assert q * t == w;
    assert (q - lo) * t == w - lo * t;
    assert (hi - q) * t == hi * t - w;
    NonNegativeFactor(q - lo, t);
    NonNegativeFactor(hi - q, t);
  }

  // ---------------------------------------------------------------------------
  // Sum and maximum of the per-card payoffs (the `forEach` accumulation)

  /** The interest a payoff reports; Infinity for a card that never clears. */
  function InterestOf(p: Payoff): (r: Ext)
    ensures r.Infinity? <==> p.Unbounded?
  {
    if p.Unbounded? then Infinity else Num(p.totalInterest)
  }

  /** The month count a payoff reports; Infinity for a card that never
      clears. */
  function MonthsOf(p: Payoff): (r: Ext)
    ensures r.Infinity? <==> p.Unbounded?
  {
    if p.Unbounded? then Infinity else Num(p.months as real)
  }

  /** The payoff of each card, in order. */
  function PayoffsOf(cards: seq<CreditCard>, payoffOf: CreditCard -> Payoff): (ps: seq<Payoff>)
    ensures |ps| == |cards| && forall i :: 0 <= i < |cards| ==> ps[i] == payoffOf(cards[i])
  {
    seq(|cards|, i requires 0 <= i < |cards| => payoffOf(cards[i]))
  }

  /** `totalInterest += result.totalInterest`, starting from 0. */
  function InterestTotal(ps: seq<Payoff>): Ext
  {
    if |ps| == 0 then Num(0.0) else Add(InterestTotal(ps[..|ps| - 1]), InterestOf(ps[|ps| - 1]))
  }

  /** `maxMonths = Math.max(maxMonths, result.months)`, starting from 0. */
  function MonthsMax(ps: seq<Payoff>): Ext
  {
    if |ps| == 0 then Num(0.0) else MaxExt(MonthsMax(ps[..|ps| - 1]), MonthsOf(ps[|ps| - 1]))
  }

  /** One card that never clears makes the total interest Infinity, and
      only then is it Infinity. */
  lemma {:induction false} InterestTotalInfinite(ps: seq<Payoff>)
    ensures InterestTotal(ps).Infinity? <==> exists i :: 0 <= i < |ps| && ps[i].Unbounded?
  {
    if |ps| > 0 {
      var init := ps[..|ps| - 1];
      InterestTotalInfinite(init);
      assert forall i :: 0 <= i < |init| ==> init[i] == ps[i];
    }
  }

  /** With every payoff finite and its interest non-negative, the total is
      a non-negative number. */
  lemma {:induction false} InterestTotalNonNegative(ps: seq<Payoff>)
    requires forall i :: 0 <= i < |ps| ==> ps[i].Finite? && ps[i].totalInterest >= 0.0
    ensures InterestTotal(ps).Num? && InterestTotal(ps).value >= 0.0
  {
    if |ps| > 0 {
      var init := ps[..|ps| - 1];
      assert forall i :: 0 <= i < |init| ==> init[i] == ps[i];
      InterestTotalNonNegative(init);
    }
  }

  /** The months to payoff are Infinity exactly when some card never clears;
      otherwise they are the longest card's months (0 with no cards). */
  lemma {:induction false} MonthsMaxIsLongest(ps: seq<Payoff>)
    ensures MonthsMax(ps).Infinity? <==> exists i :: 0 <= i < |ps| && ps[i].Unbounded?
    ensures MonthsMax(ps).Num? ==> forall i :: 0 <= i < |ps| ==> ps[i].months as real <= MonthsMax(ps).value
    ensures MonthsMax(ps).Num? ==>
              MonthsMax(ps).value == 0.0 || exists i :: 0 <= i < |ps| && ps[i].months as real == MonthsMax(ps).value
  {
    if |ps| > 0 {
      var init := ps[..|ps| - 1];
      assert forall i :: 0 <= i < |init| ==> init[i] == ps[i];
      MonthsMaxIsLongest(init);
    }
  }

  // ---------------------------------------------------------------------------
  // The debt summary

  /** JavaScript numbers that may be Infinity are `Ext`. */
  datatype DebtSummary = DebtSummary(
    totalBalance: real,
    weightedApr: real,
    totalMinPayment: real,
    totalInterest: Ext,
    monthsToPayoff: Ext,
    cards: seq<CreditCard>)

  const EmptySummary := DebtSummary(0.0, 0.0, 0.0, Num(0.0), Num(0.0), [])

  /** The summary of the valid cards, given how a card's monthly payment and
      its payoff are found. */
  function Summary(cards: seq<CreditCard>, paymentOf: CreditCard -> real, payoffOf: CreditCard -> Payoff): (s: DebtSummary)
    ensures s.cards == ValidCards(cards)
  {
    var valid := ValidCards(cards);
    if |valid| == 0 then EmptySummary
    else
      TotalBalancePositive(valid);
      var total := TotalBalance(valid);
      var ps := PayoffsOf(valid, payoffOf);
      DebtSummary(total, AprWeightedSum(valid) / total, TotalPayment(valid, paymentOf),
                  InterestTotal(ps), MonthsMax(ps), valid)
  }

  /** Without a valid card every figure is 0 and the list is empty; with one
      the total balance is positive. */
  lemma SummaryEmptyIff(cards: seq<CreditCard>, paymentOf: CreditCard -> real, payoffOf: CreditCard -> Payoff)
    ensures !HasValidCards(cards) <==> Summary(cards, paymentOf, payoffOf) == EmptySummary
    ensures HasValidCards(cards) <==> Summary(cards, paymentOf, payoffOf).totalBalance > 0.0
  {
    HasValidCardsIffFiltered(cards);
    if |ValidCards(cards)| > 0 {
      TotalBalancePositive(ValidCards(cards));
    }
  }

  /** The weighted APR of a non-empty list of positive balances lies
      between any bounds on its APRs. */
  lemma WeightedAprBetween(cards: seq<CreditCard>, lo: real, hi: real)
    requires |cards| >= 1
    requires forall c :: c in cards ==> c.balance > 0.0 && lo <= c.apr <= hi
    ensures TotalBalance(cards) > 0.0
    ensures lo <= AprWeightedSum(cards) / TotalBalance(cards) <= hi
  {
    TotalBalancePositive(cards);
    WeightedSumBetween(cards, lo, hi);
    QuotientOfSums(cards, lo, hi);
  }

  lemma QuotientOfSums(cards: seq<CreditCard>, lo: real, hi: real)
    requires TotalBalance(cards) > 0.0
    requires lo * TotalBalance(cards) <= AprWeightedSum(cards) <= hi * TotalBalance(cards)
    ensures lo <= AprWeightedSum(cards) / TotalBalance(cards) <= hi
  {
    QuotientBetween(AprWeightedSum(cards), TotalBalance(cards), lo, hi);
  }

  /** The summary's weighted APR lies between any bounds on the valid
      cards' APRs, in particular between the smallest and the largest. */
  lemma SummaryWeightedAprBetween(cards: seq<CreditCard>, paymentOf: CreditCard -> real, payoffOf: CreditCard -> Payoff, lo: real, hi: real)
    requires HasValidCards(cards)
    requires forall c :: c in cards && IsValid(c) ==> lo <= c.apr <= hi
    ensures lo <= Summary(cards, paymentOf, payoffOf).weightedApr <= hi
  {
    var valid := ValidCards(cards);
    assert |valid| >= 1 by {
      HasValidCardsIffFiltered(cards);
    }
    WeightedAprBetween(valid, lo, hi);
  }

  /** The total interest and the months to payoff are Infinity exactly when
      some valid card never clears; otherwise no valid card takes longer
      than the months reported. */
  lemma SummaryDiverges(cards: seq<CreditCard>, paymentOf: CreditCard -> real, payoffOf: CreditCard -> Payoff)
    ensures Summary(cards, paymentOf, payoffOf).totalInterest.Infinity?
            <==> exists c :: c in ValidCards(cards) && payoffOf(c).Unbounded?
    ensures Summary(cards, paymentOf, payoffOf).monthsToPayoff.Infinity?
            <==> exists c :: c in ValidCards(cards) && payoffOf(c).Unbounded?
    ensures Summary(cards, paymentOf, payoffOf).monthsToPayoff.Num? ==>
              forall c :: c in ValidCards(cards) ==> payoffOf(c).months as real <= Summary(cards, paymentOf, payoffOf).monthsToPayoff.value
  {
    var valid := ValidCards(cards);
    var ps := PayoffsOf(valid, payoffOf);
    InterestTotalInfinite(ps);
    MonthsMaxIsLongest(ps);
    forall c | c in valid
      ensures exists i :: 0 <= i < |ps| && ps[i] == payoffOf(c)
    {
      var i :| 0 <= i < |valid| && valid[i] == c;
      assert ps[i] == payoffOf(c);
    }
  }

  /** When every valid card clears and is charged no negative interest,
      the summary's interest is a non-negative number. */
  lemma SummaryInterestNonNegative(cards: seq<CreditCard>, paymentOf: CreditCard -> real, payoffOf: CreditCard -> Payoff)
    requires forall c :: c in ValidCards(cards) ==> payoffOf(c).Finite? && payoffOf(c).totalInterest >= 0.0
    ensures Summary(cards, paymentOf, payoffOf).totalInterest.Num?
    ensures Summary(cards, paymentOf, payoffOf).totalInterest.value >= 0.0
  {
    var valid := ValidCards(cards);
    var ps := PayoffsOf(valid, payoffOf);
    forall i | 0 <= i < |ps|
      ensures ps[i].Finite? && ps[i].totalInterest >= 0.0
    {
      assert valid[i] in valid;
    }
    InterestTotalNonNegative(ps);
  }

  /** Two ways of finding payments and payoffs that agree on every valid
      card give the same summary. */
  lemma {:induction false} SummaryCongruent(cards: seq<CreditCard>,
                                            paymentOf1: CreditCard -> real, payoffOf1: CreditCard -> Payoff,
                                            paymentOf2: CreditCard -> real, payoffOf2: CreditCard -> Payoff)
    requires forall c :: c in cards && IsValid(c) ==> paymentOf1(c) == paymentOf2(c) && payoffOf1(c) == payoffOf2(c)
    ensures Summary(cards, paymentOf1, payoffOf1) == Summary(cards, paymentOf2, payoffOf2)
  {
    var valid := ValidCards(cards);
    TotalPaymentCongruent(valid, paymentOf1, paymentOf2);
    assert PayoffsOf(valid, payoffOf1) == PayoffsOf(valid, payoffOf2);
  }

  lemma {:induction false} TotalPaymentCongruent(cards: seq<CreditCard>, paymentOf1: CreditCard -> real, paymentOf2: CreditCard -> real)
    requires forall c :: c in cards ==> paymentOf1(c) == paymentOf2(c)
    ensures TotalPayment(cards, paymentOf1) == TotalPayment(cards, paymentOf2)
  {
    if |cards| > 0 {
      var init := cards[..|cards| - 1];
      assert forall c :: c in init ==> c in cards;
      TotalPaymentCongruent(init, paymentOf1, paymentOf2);
    }
  }

  // ---------------------------------------------------------------------------
  // The consolidation loan

  datatype ConsolidationResult = ConsolidationResult(
    monthlyPayment: real,
    totalInterest: real,
    interestSaved: Ext,
    monthlySaved: real,
    termMonths: nat)

  /** One loan for the whole balance over `loanTermYears` years, compared
      with the cards. None when there is nothing to consolidate. The savings
      are plain differences and may be negative. */
  function Consolidate(s: DebtSummary, loanApr: real, loanTermYears: nat): (r: Option<ConsolidationResult>)
    requires s.totalBalance > 0.0 ==> LoanDefined(loanApr, loanTermYears * 12)
    ensures r.None? <==> s.totalBalance <= 0.0
    ensures r.Some? ==> r.value.termMonths == loanTermYears * 12
    ensures r.Some? ==> r.value.monthlyPayment == LoanPayment(s.totalBalance, loanApr, r.value.termMonths)
    ensures r.Some? ==> r.value.totalInterest == LoanTotalInterest(s.totalBalance, loanApr, r.value.termMonths)
    ensures r.Some? ==> r.value.monthlySaved + r.value.monthlyPayment == s.totalMinPayment
    ensures r.Some? ==> (r.value.interestSaved.Infinity? <==> s.totalInterest.Infinity?)
    ensures r.Some? && r.value.interestSaved.Num? ==>
              r.value.interestSaved.value + r.value.totalInterest == s.totalInterest.value
  {
    if s.totalBalance <= 0.0 then None
    else
      var termMonths := loanTermYears * 12;
      var monthlyPayment := LoanPayment(s.totalBalance, loanApr, termMonths);
      var totalInterest := LoanTotalInterest(s.totalBalance, loanApr, termMonths);
      Some(ConsolidationResult(monthlyPayment, totalInterest, Sub(s.totalInterest, totalInterest),
                               s.totalMinPayment - monthlyPayment, termMonths))
  }

  /** The loan's payment retires the whole balance in exactly its term, and
      the interest it reports is what that schedule charges. */
  lemma ConsolidationRetiresBalance(s: DebtSummary, loanApr: real, loanTermYears: nat)
    requires s.totalBalance > 0.0 && LoanDefined(loanApr, loanTermYears * 12)
    ensures var c := Consolidate(s, loanApr, loanTermYears).value;
      && Amortize(s.totalBalance, MonthlyRate(loanApr), c.monthlyPayment, c.termMonths) == 0.0
      && c.totalInterest == ScheduleInterest(s.totalBalance, MonthlyRate(loanApr), c.monthlyPayment, c.termMonths)
  {
    LoanPaymentRetiresLoan(s.totalBalance, loanApr, loanTermYears * 12);
    LoanInterestIsScheduleInterest(s.totalBalance, loanApr, loanTermYears * 12);
  }

  /** Nothing clamps the saving: cards that charge no interest make a loan
      at a positive rate a loss. */
  lemma ConsolidationCanLose(s: DebtSummary, loanApr: real, loanTermYears: nat)
    requires s.totalBalance > 0.0 && s.totalInterest == Num(0.0)
    requires loanApr > 0.0 && loanTermYears >= 1
    ensures LoanDefined(loanApr, loanTermYears * 12)
    ensures Consolidate(s, loanApr, loanTermYears).value.interestSaved.value < 0.0
  {
    LoanInterestPositive(s.totalBalance, loanApr, loanTermYears * 12);
  }

  // ---------------------------------------------------------------------------
  // The investment projection

  /** `Math.max(90 - userAge - loanTermYears, 1)`: the years from the end of
      the loan to age 90, and at least one. */
  function YearsToInvest(userAge: int, loanTermYears: int): (years: int)
    ensures years >= 1 && years >= TargetAge - userAge - loanTermYears
    ensures years == 1 || years == TargetAge - userAge - loanTermYears
  {
    if TargetAge - userAge - loanTermYears >= 1 then TargetAge - userAge - loanTermYears else 1
  }

  /** The growth of investing the loan payment every month until age 90,
      shown only when the loan saves interest (an Infinity saving counts as
      positive). */
  function InvestmentData(c: Option<ConsolidationResult>, userAge: int, loanTermYears: int, annualReturn: real)
    : (r: Option<seq<InvestmentPoint>>)
    ensures r.Some? <==> c.Some? && IsPositive(c.value.interestSaved)
    ensures r.Some? ==>
              r.value == InvestmentSeries(c.value.monthlyPayment, annualReturn, YearsToInvest(userAge, loanTermYears))
  {
    if c.None? || !IsPositive(c.value.interestSaved) then None
    else Some(InvestmentSeries(c.value.monthlyPayment, annualReturn, YearsToInvest(userAge, loanTermYears)))
  }

  /** A shown projection has one point per year to invest, never fewer than
      one, and its first year deposits twelve loan payments. */
  lemma InvestmentDataShape(c: Option<ConsolidationResult>, userAge: int, loanTermYears: int, annualReturn: real)
    requires InvestmentData(c, userAge, loanTermYears, annualReturn).Some?
    ensures var data := InvestmentData(c, userAge, loanTermYears, annualReturn).value;
      && |data| == YearsToInvest(userAge, loanTermYears) >= 1
      && data[0].year == 1
      && data[0].invested == Round(Deposited(c.value.monthlyPayment, 12))
  {
    SeriesAtRatePoints(c.value.monthlyPayment, MonthlyRate(annualReturn), YearsToInvest(userAge, loanTermYears));
  }

  /** When some card never clears, any consolidation saves Infinity, so
      the projection is shown. */
  lemma DivergingCardShowsProjection(cards: seq<CreditCard>, paymentOf: CreditCard -> real, payoffOf: CreditCard -> Payoff,
                                     loanApr: real, loanTermYears: nat, userAge: int, annualReturn: real)
    requires exists c :: c in ValidCards(cards) && payoffOf(c).Unbounded?
    requires LoanDefined(loanApr, loanTermYears * 12)
    ensures var s := Summary(cards, paymentOf, payoffOf);
      InvestmentData(Consolidate(s, loanApr, loanTermYears), userAge, loanTermYears, annualReturn).Some?
  {
    var s := Summary(cards, paymentOf, payoffOf);
    SummaryDiverges(cards, paymentOf, payoffOf);
    var c :| c in ValidCards(cards) && payoffOf(c).Unbounded?;
    assert c in cards && IsValid(c);
    SummaryEmptyIff(cards, paymentOf, payoffOf);
  }
}
