/** The calculator's reducer: every action produces the next state from the
    current one without changing it in place. */
module CalculatorReducer {
  import opened Arith
  import opened Types
  import opened Cards
  import opened Constants

  /** The actions the reducer receives. Ids that the source generates at
      random arrive as parameters: one for an added card, two for the
      default cards of a reset. */
  datatype Action =
    | AddCardAction(newId: string)
    | RemoveCardAction(id: string)
    | UpdateCardAction(id: string, update: CardUpdate)
    | SetStep(step: Step)
    | SetLoanApr(loanApr: real)
    | SetLoanTerm(loanTermYears: nat)
    | SetUserAge(userAge: int)
    | SetAnnualReturn(annualReturn: real)
    | SetCreditScore(creditScore: CreditScoreRange)
    | Reset(id1: string, id2: string)

  /** The two states agree on every field except the card list. */
  predicate SameSettings(s: CalculatorState, t: CalculatorState)
  {
    s.step == t.step && s.loanApr == t.loanApr && s.loanTermYears == t.loanTermYears
    && s.userAge == t.userAge && s.annualReturn == t.annualReturn && s.creditScore == t.creditScore
  }

  function Reduce(s: CalculatorState, a: Action): (r: CalculatorState)
    ensures a.AddCardAction? ==>
              SameSettings(r, s) && |r.cards| == |s.cards| + 1
              && r.cards[..|s.cards|] == s.cards && r.cards[|s.cards|] == BlankCard(a.newId)
    ensures a.RemoveCardAction? ==>
              SameSettings(r, s) && r.cards == RemoveCard(s.cards, a.id) && |r.cards| <= |s.cards|
              && (forall c :: c in r.cards <==> c in s.cards && c.id != a.id)
    ensures a.UpdateCardAction? ==>
              SameSettings(r, s) && |r.cards| == |s.cards|
              && (forall i :: 0 <= i < |s.cards| && s.cards[i].id != a.id ==> r.cards[i] == s.cards[i])
              && (forall i :: 0 <= i < |s.cards| && s.cards[i].id == a.id ==> r.cards[i] == ApplyUpdate(s.cards[i], a.update))
    ensures a.SetStep? ==> r == s.(step := a.step)
    ensures a.SetLoanApr? ==> r == s.(loanApr := a.loanApr)
    ensures a.SetLoanTerm? ==> r == s.(loanTermYears := a.loanTermYears)
    ensures a.SetUserAge? ==> r == s.(userAge := a.userAge)
    ensures a.SetAnnualReturn? ==> r == s.(annualReturn := a.annualReturn)
    ensures a.SetCreditScore? ==> r == s
    ensures a.Reset? ==> r == InitialState(a.id1, a.id2)
  {
    match a
    case AddCardAction(id) => s.(cards := AddCard(s.cards, id))
    case RemoveCardAction(id) => s.(cards := RemoveCard(s.cards, id))
    case UpdateCardAction(id, u) => s.(cards := UpdateCard(s.cards, id, u))
    case SetStep(step) => s.(step := step)
    case SetLoanApr(apr) => s.(loanApr := apr)
    case SetLoanTerm(term) => s.(loanTermYears := term)
    case SetUserAge(age) => s.(userAge := age)
    case SetAnnualReturn(rate) => s.(annualReturn := rate)
    case SetCreditScore(_) => s
    case Reset(id1, id2) => InitialState(id1, id2)
  }

  /** Adding a card under a fresh id and removing it again returns the
      state the reducer started from. */
  lemma AddThenRemoveRestores(s: CalculatorState, id: string)
    requires !HasId(s.cards, id)
    ensures Reduce(Reduce(s, AddCardAction(id)), RemoveCardAction(id)) == s
  {
    AddThenRemove(s.cards, id);
  }

  /** Removing an id twice is removing it once. */
  lemma RemoveIdempotent(s: CalculatorState, id: string)
    ensures Reduce(Reduce(s, RemoveCardAction(id)), RemoveCardAction(id)) == Reduce(s, RemoveCardAction(id))
  {
    FilterIdempotent(s.cards, (c: CreditCard) => c.id != id);
  }

  /** Repeating a card update changes nothing more, unless it moves the
      cards to another id. */
  lemma UpdateTwiceIsOnce(s: CalculatorState, id: string, u: CardUpdate)
    requires !u.SetId? || u.id == id
    ensures Reduce(Reduce(s, UpdateCardAction(id, u)), UpdateCardAction(id, u)) == Reduce(s, UpdateCardAction(id, u))
  {
    UpdateIdempotent(s.cards, id, u);
  }

  /** A reset forgets everything: any two states reset with the same ids
      agree afterwards. */
  lemma ResetForgetsState(s: CalculatorState, t: CalculatorState, id1: string, id2: string)
    ensures Reduce(s, Reset(id1, id2)) == Reduce(t, Reset(id1, id2))
    ensures HasValidCards(Reduce(s, Reset(id1, id2)).cards)
  {
    InitialStateHasValidCards(id1, id2);
  }

  /** The settings setters never touch the card list, so the validity of
      the cards survives them. */
  lemma SettersKeepCards(s: CalculatorState, a: Action)
    requires !a.AddCardAction? && !a.RemoveCardAction? && !a.UpdateCardAction? && !a.Reset?
    ensures Reduce(s, a).cards == s.cards
    ensures HasValidCards(Reduce(s, a).cards) == HasValidCards(s.cards)
  {
  }

  /** Removing a card never creates a valid card, and adding one never
      changes whether there is one. */
  lemma CardActionsAndValidity(s: CalculatorState, id: string)
    ensures HasValidCards(Reduce(s, RemoveCardAction(id)).cards) ==> HasValidCards(s.cards)
    ensures HasValidCards(Reduce(s, AddCardAction(id)).cards) <==> HasValidCards(s.cards)
  {
    var added := Reduce(s, AddCardAction(id)).cards;
    if HasValidCards(added) {
      var c :| c in added && IsValid(c);
      assert added == s.cards + [BlankCard(id)];
      assert c in s.cards;
    }
    if HasValidCards(s.cards) {
      var c :| c in s.cards && IsValid(c);
      assert added == s.cards + [BlankCard(id)];
      assert c in added;
    }
  }
}
