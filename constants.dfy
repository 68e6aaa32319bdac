/** The calculator's initial state and the ranges its controls offer. */
module Constants {
  import opened Arith
  import opened Types
  import opened Cards

  const LoanAprMin: real := 3.0
  const LoanAprMax: real := 36.0
  const LoanAprStep: real := 0.5
  const LoanTermMin: nat := 1
  const LoanTermMax: nat := 7
  const UserAgeMin: int := 18
  const UserAgeMax: int := 85
  const TargetAge: int := 90
  const AnnualReturnOptions: seq<real> := [6.0, 8.0, 10.0, 12.0]

  /** The two sample cards, under the two ids the caller generated. Neither
      has a monthly payment. */
  function DefaultCards(id1: string, id2: string): (cards: seq<CreditCard>)
    ensures |cards| == 2
    ensures cards[0].balance == 5000.0 && cards[0].apr == 22.99
    ensures cards[1].balance == 3000.0 && cards[1].apr == 19.49
    ensures forall i :: 0 <= i < 2 ==> cards[i].name == "" && cards[i].monthlyPayment == 0.0
    ensures cards[0].id == id1 && cards[1].id == id2
  {
    [CreditCard(id1, "", 5000.0, 22.99, 0.0), CreditCard(id2, "", 3000.0, 19.49, 0.0)]
  }

  /** The state the calculator starts from and resets to. No credit score is
      recorded. */
  function InitialState(id1: string, id2: string): (s: CalculatorState)
    ensures s.step == 1 && s.cards == DefaultCards(id1, id2)
    ensures s.loanApr == 10.0 && s.loanTermYears == 3 && s.userAge == 30 && s.annualReturn == 8.0
    ensures s.creditScore.None?
  {
    CalculatorState(1, DefaultCards(id1, id2), 10.0, 3, 30, 8.0, None)
  }

  /** An APR the slider can land on: a whole number of steps above the
      minimum. */
  predicate OnAprStep(apr: real)
  {
    var steps := (apr - LoanAprMin) / LoanAprStep;
    steps == steps.Floor as real
  }

  /** Every control starts inside its own range, on a step of the APR
      slider and on one of the offered returns. */
  lemma InitialStateInRange(id1: string, id2: string)
    ensures var s := InitialState(id1, id2);
      && LoanAprMin <= s.loanApr <= LoanAprMax
      && OnAprStep(s.loanApr)
      && LoanTermMin <= s.loanTermYears <= LoanTermMax
      && UserAgeMin <= s.userAge <= UserAgeMax
      && s.annualReturn in AnnualReturnOptions
  {
  }

  /** The initial cards are worth summarising from the start. */
  lemma InitialStateHasValidCards(id1: string, id2: string)
    ensures HasValidCards(InitialState(id1, id2).cards)
    ensures |ValidCards(InitialState(id1, id2).cards)| == 2
  {
    var cards := InitialState(id1, id2).cards;
    assert IsValid(cards[0]) && cards[0] in cards;
    assert Filter(cards, IsValid) == [cards[0]] + Filter(cards[1..], IsValid);
    assert Filter(cards[1..], IsValid) == [cards[1]] + Filter(cards[2..], IsValid);
  }
}
