/** The single-file calculator component: its card state, its debt summary
    (each card paid off at the 2%/$25 minimum of its starting balance), and
    its reset. Consolidation and projection are the shared ones in
    `Aggregation`. */
module LegacyCalculator {
  import opened Arith
  import opened Calculations
  import opened Types
  import opened Cards
  import opened Aggregation

  /** The component's separate pieces of state, gathered in one record. */
  datatype LegacyState = LegacyState(
    cards: seq<CreditCard>,
    step: Step,
    loanApr: real,
    loanTerm: nat,
    userAge: int,
    annualReturn: real)

  /** Each card's monthly payment: the minimum for its starting balance. */
  function LegacyPayment(c: CreditCard): (p: real)
    ensures p >= 25.0 && p >= c.balance * 0.02
  {
    MinPayment(c.balance)
  }

  /** Each card's payoff at that fixed payment. */
  function LegacyPayoff(c: CreditCard): Payoff
  {
    PayoffOf(c.balance, c.apr, LegacyPayment(c))
  }

  /** The summary memo: filter, sum, weight, then run the payoff loop on
      each valid card, adding up the interest and keeping the longest
      payoff. */
  method LegacyDebtSummary(cards: seq<CreditCard>) returns (s: DebtSummary)
    ensures s == Summary(cards, LegacyPayment, LegacyPayoff)
  {
    var valid := ValidCards(cards);
    if |valid| == 0 {
      return EmptySummary;
    }
    TotalBalancePositive(valid);
    var totalBalance := TotalBalance(valid);
    var weightedApr := AprWeightedSum(valid) / totalBalance;
    var totalMinPayment := TotalPayment(valid, LegacyPayment);
    ghost var ps := PayoffsOf(valid, LegacyPayoff);
    var totalInterest := Num(0.0);
    var maxMonths := Num(0.0);
    var i := 0;
    while i < |valid|
      invariant 0 <= i <= |valid|
      invariant totalInterest == InterestTotal(ps[..i])
      invariant maxMonths == MonthsMax(ps[..i])
    {
      var result := CreditCardPayoff(valid[i].balance, valid[i].apr, MinPayment(valid[i].balance));
      assert ps[..i + 1][..i] == ps[..i];
      totalInterest := Add(totalInterest, InterestOf(result));
      maxMonths := MaxExt(maxMonths, MonthsOf(result));
      i := i + 1;
    }
    assert ps[..|valid|] == ps;
    s := DebtSummary(totalBalance, weightedApr, totalMinPayment, totalInterest, maxMonths, valid);
  }

  /** A valid card of 24% APR or more whose balance puts the 2% minimum
      above $25 never clears, so the summary's interest and months are
      Infinity; when every valid card is under 24% both are finite. */
  lemma LegacySummaryDiverges(cards: seq<CreditCard>)
    ensures (exists c :: c in ValidCards(cards) && c.apr >= 24.0 && c.balance >= 1250.0) ==>
              Summary(cards, LegacyPayment, LegacyPayoff).totalInterest.Infinity?
              && Summary(cards, LegacyPayment, LegacyPayoff).monthsToPayoff.Infinity?
    ensures (forall c :: c in ValidCards(cards) ==> c.apr < 24.0) ==>
              Summary(cards, LegacyPayment, LegacyPayoff).totalInterest.Num?
              && Summary(cards, LegacyPayment, LegacyPayoff).monthsToPayoff.Num?
  {
    SummaryDiverges(cards, LegacyPayment, LegacyPayoff);
    if c :| c in ValidCards(cards) && c.apr >= 24.0 && c.balance >= 1250.0 {
      MinPaymentDiverges(c.balance, c.apr);
    }
    if forall c :: c in ValidCards(cards) ==> c.apr < 24.0 {
      forall c | c in ValidCards(cards)
        ensures LegacyPayoff(c).Finite?
      {
        MinPaymentConverges(c.balance, c.apr);
      }
    }
  }

  /** The state the component starts with: the two sample cards, with no
      monthly payment, and the starting settings. */
  function LegacyInitialState(id1: string, id2: string): (s: LegacyState)
    ensures |s.cards| == 2 && HasValidCards(s.cards)
    ensures s.cards[0].id == id1 && s.cards[0].balance == 5000.0 && s.cards[0].apr == 22.99
    ensures s.cards[1].id == id2 && s.cards[1].balance == 3000.0 && s.cards[1].apr == 19.49
    ensures forall i :: 0 <= i < 2 ==> s.cards[i].name == "" && s.cards[i].monthlyPayment == 0.0
    ensures s.step == 1 && s.loanApr == 10.0 && s.loanTerm == 3 && s.userAge == 30 && s.annualReturn == 8.0
  {
    var cards := [CreditCard(id1, "", 5000.0, 22.99, 0.0), CreditCard(id2, "", 3000.0, 19.49, 0.0)];
    assert cards[0] in cards && IsValid(cards[0]);
    LegacyState(cards, 1, 10.0, 3, 30, 8.0)
  }

  /** `hasValidCards`: at least one card survives the validity filter. */
  predicate LegacyHasValidCards(cards: seq<CreditCard>)
  {
    |ValidCards(cards)| >= 1
  }

  /** The component's test and the reducer hook's `some` test agree. */
  lemma LegacyHasValidCardsAgrees(cards: seq<CreditCard>)
    ensures LegacyHasValidCards(cards) <==> HasValidCards(cards)
  {
    HasValidCardsIffFiltered(cards);
  }

  /** `handleReset`: one blank card under a fresh id, and every setting
      back to its starting value. Unlike the reducer's reset it does not
      restore the sample cards. */
  function HandleReset(s: LegacyState, id: string): (r: LegacyState)
    ensures r.cards == [BlankCard(id)]
    ensures r.step == 1 && r.loanApr == 10.0 && r.loanTerm == 3 && r.userAge == 30 && r.annualReturn == 8.0
  {
    LegacyState([BlankCard(id)], 1, 10.0, 3, 30, 8.0)
  }

  /** After a reset there is no valid card, so the summary is empty and
      there is nothing to consolidate; the settings match a fresh start. */
  lemma ResetLeavesNothingToSummarise(s: LegacyState, id: string, id1: string, id2: string)
    ensures !LegacyHasValidCards(HandleReset(s, id).cards)
    ensures Summary(HandleReset(s, id).cards, LegacyPayment, LegacyPayoff) == EmptySummary
    ensures HandleReset(s, id).(cards := LegacyInitialState(id1, id2).cards) == LegacyInitialState(id1, id2)
  {
    var cards := HandleReset(s, id).cards;
    assert !IsValid(cards[0]);
    assert Filter(cards, IsValid) == Filter(cards[1..], IsValid);
    LegacyHasValidCardsAgrees(cards);
    SummaryEmptyIff(cards, LegacyPayment, LegacyPayoff);
  }
}
