/** The calculator hook's derivations. The functions it imports for the
    minimum payment, the payoff with a dynamic minimum and the payoff
    timeline are not part of this model, so they arrive as parameters. */
module DebtCalculations {
  import opened Arith
  import opened Calculations
  import opened Types
  import opened Cards
  import opened Aggregation

  /** Each card's monthly payment: its own when positive, otherwise the
      minimum the given function computes from balance and APR. */
  function HookPayment(minPayment: (real, real) -> real): CreditCard -> real
  {
    (c: CreditCard) => if c.monthlyPayment > 0.0 then c.monthlyPayment else minPayment(c.balance, c.apr)
  }

  /** Each card's payoff: the user's payment is handed on only when it is
      positive. */
  function HookPayoff(payoffDynamic: (real, real, Option<real>) -> Payoff): CreditCard -> Payoff
  {
    (c: CreditCard) => payoffDynamic(c.balance, c.apr, if c.monthlyPayment > 0.0 then Some(c.monthlyPayment) else None)
  }

  /** The summary memo: filter, sum, weight, then the per-card payoffs,
      adding up the interest and keeping the longest payoff. */
  method HookDebtSummary(cards: seq<CreditCard>, minPayment: (real, real) -> real,
                         payoffDynamic: (real, real, Option<real>) -> Payoff)
    returns (s: DebtSummary)
    ensures s == Summary(cards, HookPayment(minPayment), HookPayoff(payoffDynamic))
  {
    var valid := ValidCards(cards);
    if |valid| == 0 {
      return EmptySummary;
    }
    TotalBalancePositive(valid);
    var totalBalance := TotalBalance(valid);
    var weightedApr := AprWeightedSum(valid) / totalBalance;
    var totalMinPayment := TotalPayment(valid, HookPayment(minPayment));
    ghost var ps := PayoffsOf(valid, HookPayoff(payoffDynamic));
    var totalInterest := Num(0.0);
    var maxMonths := Num(0.0);
    var i := 0;
    while i < |valid|
      invariant 0 <= i <= |valid|
      invariant totalInterest == InterestTotal(ps[..i])
      invariant maxMonths == MonthsMax(ps[..i])
    {
      var c := valid[i];
      var result := payoffDynamic(c.balance, c.apr, if c.monthlyPayment > 0.0 then Some(c.monthlyPayment) else None);
      assert ps[..i + 1][..i] == ps[..i];
      totalInterest := Add(totalInterest, InterestOf(result));
      maxMonths := MaxExt(maxMonths, MonthsOf(result));
      i := i + 1;
    }
    assert ps[..|valid|] == ps;
    s := DebtSummary(totalBalance, weightedApr, totalMinPayment, totalInterest, maxMonths, valid);
  }

  /** When every valid card carries its own payment, the minimum-payment
      function plays no part in the summary. */
  lemma OwnPaymentsIgnoreMinimum(cards: seq<CreditCard>, minPayment1: (real, real) -> real,
                                 minPayment2: (real, real) -> real,
                                 payoffDynamic: (real, real, Option<real>) -> Payoff)
    requires forall c :: c in cards && IsValid(c) ==> c.monthlyPayment > 0.0
    ensures Summary(cards, HookPayment(minPayment1), HookPayoff(payoffDynamic))
            == Summary(cards, HookPayment(minPayment2), HookPayoff(payoffDynamic))
  {
    SummaryCongruent(cards, HookPayment(minPayment1), HookPayoff(payoffDynamic),
                     HookPayment(minPayment2), HookPayoff(payoffDynamic));
  }

  /** A zero or negative payment on a card is the same as none: the card is
      handed on without one and falls back to the minimum. */
  lemma NonPositivePaymentIsNone(c: CreditCard, minPayment: (real, real) -> real,
                                 payoffDynamic: (real, real, Option<real>) -> Payoff)
    requires c.monthlyPayment <= 0.0
    ensures HookPayoff(payoffDynamic)(c) == HookPayoff(payoffDynamic)(c.(monthlyPayment := 0.0))
    ensures HookPayoff(payoffDynamic)(c) == payoffDynamic(c.balance, c.apr, None)
    ensures HookPayment(minPayment)(c) == minPayment(c.balance, c.apr)
  {
  }

  /** With no card payments, a minimum of 2% or $25 and a payoff that
      simulates that fixed minimum, the hook's summary is the single-file
      component's. */
  lemma HookMatchesLegacy(cards: seq<CreditCard>, minPayment: (real, real) -> real,
                          payoffDynamic: (real, real, Option<real>) -> Payoff,
                          legacyPayment: CreditCard -> real, legacyPayoff: CreditCard -> Payoff)
    requires forall c :: c in cards && IsValid(c) ==> c.monthlyPayment <= 0.0
    requires forall c :: c in cards && IsValid(c) ==>
               minPayment(c.balance, c.apr) == legacyPayment(c)
               && payoffDynamic(c.balance, c.apr, None) == legacyPayoff(c)
    ensures Summary(cards, HookPayment(minPayment), HookPayoff(payoffDynamic))
            == Summary(cards, legacyPayment, legacyPayoff)
  {
    SummaryCongruent(cards, HookPayment(minPayment), HookPayoff(payoffDynamic), legacyPayment, legacyPayoff);
  }

  /** What the timeline function receives for each valid card. */
  datatype CardTerms = CardTerms(balance: real, apr: real, monthlyPayment: real)

  /** One point of the payoff chart. */
  datatype DebtPayoffPoint = DebtPayoffPoint(month: int, currentBalance: real, loanBalance: real)

  function TermsOf(cards: seq<CreditCard>): (terms: seq<CardTerms>)
    ensures |terms| == |cards|
    ensures forall i :: 0 <= i < |cards| ==>
              terms[i] == CardTerms(cards[i].balance, cards[i].apr, cards[i].monthlyPayment)
  {
    seq(|cards|, i requires 0 <= i < |cards| => CardTerms(cards[i].balance, cards[i].apr, cards[i].monthlyPayment))
  }

  /** The payoff chart: empty whenever there is nothing to consolidate,
      otherwise the timeline of the valid cards against the loan. */
  function DebtPayoffData(s: DebtSummary, c: Option<ConsolidationResult>, cards: seq<CreditCard>,
                          loanApr: real, loanTermYears: nat,
                          timeline: (seq<CardTerms>, real, nat) -> seq<DebtPayoffPoint>)
    : (r: seq<DebtPayoffPoint>)
    ensures s.totalBalance <= 0.0 || c.None? ==> r == []
    ensures s.totalBalance > 0.0 && c.Some? ==> r == timeline(TermsOf(ValidCards(cards)), loanApr, loanTermYears * 12)
  {
    if s.totalBalance <= 0.0 || c.None? then []
    else timeline(TermsOf(ValidCards(cards)), loanApr, loanTermYears * 12)
  }

  /** Within the hook the guard reduces to one question: is there a valid
      card? */
  lemma PayoffDataNeedsValidCard(cards: seq<CreditCard>, minPayment: (real, real) -> real,
                                 payoffDynamic: (real, real, Option<real>) -> Payoff,
                                 loanApr: real, loanTermYears: nat,
                                 timeline: (seq<CardTerms>, real, nat) -> seq<DebtPayoffPoint>)
    requires Summary(cards, HookPayment(minPayment), HookPayoff(payoffDynamic)).totalBalance > 0.0 ==>
               LoanDefined(loanApr, loanTermYears * 12)
    ensures var s := Summary(cards, HookPayment(minPayment), HookPayoff(payoffDynamic));
      !HasValidCards(cards) ==> DebtPayoffData(s, Consolidate(s, loanApr, loanTermYears), cards, loanApr, loanTermYears, timeline) == []
    ensures var s := Summary(cards, HookPayment(minPayment), HookPayoff(payoffDynamic));
      HasValidCards(cards) ==>
        DebtPayoffData(s, Consolidate(s, loanApr, loanTermYears), cards, loanApr, loanTermYears, timeline)
        == timeline(TermsOf(ValidCards(cards)), loanApr, loanTermYears * 12)
  {
    SummaryEmptyIff(cards, HookPayment(minPayment), HookPayoff(payoffDynamic));
  }
}
