/** The records the calculator passes around: credit cards, the step of
    the conversation, the credit score choice and the whole calculator
    state. */
module Types {
  import opened Arith

  /** A credit card row. A card created without a monthly payment behaves
      as one whose payment is 0, since `undefined > 0` is false. */
  datatype CreditCard = CreditCard(id: string, name: string, balance: real, apr: real, monthlyPayment: real)

  datatype CreditScoreRange = Excellent | Good | Fair | Poor

  /** The four steps of the conversation. */
  type Step = s: int | 1 <= s <= 4 witness 1

  /** The reducer's state. A missing credit score is `None`. */
  datatype CalculatorState = CalculatorState(
    step: Step,
    cards: seq<CreditCard>,
    loanApr: real,
    loanTermYears: nat,
    userAge: int,
    annualReturn: real,
    creditScore: Option<CreditScoreRange>)
}
