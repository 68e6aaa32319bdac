/** The card-list operations: adding a blank card, removing the cards with
    an id, updating one field of the cards with an id, and picking out the
    cards that take part in the debt summary. */
module Cards {
  import opened Types

  /** Array.prototype.filter on a card list: the cards that pass `keep`, in order. */
  function Filter(s: seq<CreditCard>, keep: CreditCard -> bool): (r: seq<CreditCard>)
    ensures |r| <= |s|
    ensures forall x :: x in r <==> x in s && keep(x)
  {
    if |s| == 0 then []
    else (if keep(s[0]) then [s[0]] else []) + Filter(s[1..], keep)
  }

  /** Filtering a concatenation filters each part in place, so the order of
      the kept elements is the order they had. */
  lemma {:induction false} FilterAppend(a: seq<CreditCard>, b: seq<CreditCard>, keep: CreditCard -> bool)
    ensures Filter(a + b, keep) == Filter(a, keep) + Filter(b, keep)
  {
    if |a| == 0 {
      assert a + b == b;
    } else {
      assert (a + b)[1..] == a[1..] + b;
      FilterAppend(a[1..], b, keep);
    }
  }

  /** Filtering keeps everything exactly when everything passes. */
  lemma {:induction false} FilterKeepsAll(s: seq<CreditCard>, keep: CreditCard -> bool)
    ensures Filter(s, keep) == s <==> forall x :: x in s ==> keep(x)
  {
    if |s| > 0 {
      FilterKeepsAll(s[1..], keep);
      assert s == [s[0]] + s[1..];
      if !keep(s[0]) {
        assert |Filter(s, keep)| < |s| by {
          assert Filter(s, keep) == Filter(s[1..], keep);
        }
      }
    }
  }

  /** Filtering twice by the same test is filtering once. */
  lemma FilterIdempotent(s: seq<CreditCard>, keep: CreditCard -> bool)
    ensures Filter(Filter(s, keep), keep) == Filter(s, keep)
  {
    FilterKeepsAll(Filter(s, keep), keep);
  }

  /** The blank row that "add card" appends. */
  function BlankCard(id: string): (c: CreditCard)
    ensures c.id == id && c.name == "" && c.balance == 0.0 && c.apr == 0.0 && c.monthlyPayment == 0.0
  {
    CreditCard(id, "", 0.0, 0.0, 0.0)
  }

  function AddCard(cards: seq<CreditCard>, id: string): (r: seq<CreditCard>)
    ensures |r| == |cards| + 1
    ensures r[..|cards|] == cards && r[|cards|] == BlankCard(id)
  {
    cards + [BlankCard(id)]
  }

  predicate HasId(cards: seq<CreditCard>, id: string)
  {
    exists c :: c in cards && c.id == id
  }

  function RemoveCard(cards: seq<CreditCard>, id: string): (r: seq<CreditCard>)
    ensures |r| <= |cards|
    ensures forall c :: c in r <==> c in cards && c.id != id
    ensures !HasId(r, id)
  {
    Filter(cards, (c: CreditCard) => c.id != id)
  }

  /** Removing an id that no card has changes nothing. */
  lemma RemoveAbsent(cards: seq<CreditCard>, id: string)
    requires !HasId(cards, id)
    ensures RemoveCard(cards, id) == cards
  {
    FilterKeepsAll(cards, (c: CreditCard) => c.id != id);
  }

  /** Removing keeps the order of the remaining cards. */
  lemma RemoveDistributes(a: seq<CreditCard>, b: seq<CreditCard>, id: string)
    ensures RemoveCard(a + b, id) == RemoveCard(a, id) + RemoveCard(b, id)
  {
    FilterAppend(a, b, (c: CreditCard) => c.id != id);
  }

  /** Adding a card under a fresh id and then removing that id gives back
      the list. */
  lemma AddThenRemove(cards: seq<CreditCard>, id: string)
    requires !HasId(cards, id)
    ensures RemoveCard(AddCard(cards, id), id) == cards
  {
    RemoveDistributes(cards, [BlankCard(id)], id);
    RemoveAbsent(cards, id);
    assert RemoveCard([BlankCard(id)], id) == [] by {
      assert [BlankCard(id)][1..] == [];
    }
    assert cards + [] == cards;
  }

  /** One field of a card and its new value. */
  datatype CardUpdate =
    | SetId(id: string)
    | SetName(name: string)
    | SetBalance(balance: real)
    | SetApr(apr: real)
    | SetMonthlyPayment(monthlyPayment: real)

  /** `{ ...c, [field]: value }`: the named field takes the value and every
      other field keeps its own. */
  function ApplyUpdate(c: CreditCard, u: CardUpdate): (r: CreditCard)
    ensures r.id == (if u.SetId? then u.id else c.id)
    ensures r.name == (if u.SetName? then u.name else c.name)
    ensures r.balance == (if u.SetBalance? then u.balance else c.balance)
    ensures r.apr == (if u.SetApr? then u.apr else c.apr)
    ensures r.monthlyPayment == (if u.SetMonthlyPayment? then u.monthlyPayment else c.monthlyPayment)
  {
    match u
    case SetId(v) => c.(id := v)
    case SetName(v) => c.(name := v)
    case SetBalance(v) => c.(balance := v)
    case SetApr(v) => c.(apr := v)
    case SetMonthlyPayment(v) => c.(monthlyPayment := v)
  }

  /** Setting a field twice to the same value is setting it once. */
  lemma ApplyUpdateIdempotent(c: CreditCard, u: CardUpdate)
    ensures ApplyUpdate(ApplyUpdate(c, u), u) == ApplyUpdate(c, u)
  {
  }

  function UpdateCard(cards: seq<CreditCard>, id: string, u: CardUpdate): (r: seq<CreditCard>)
    ensures |r| == |cards|
    ensures forall i :: 0 <= i < |cards| ==>
              r[i] == if cards[i].id == id then ApplyUpdate(cards[i], u) else cards[i]
  {
    seq(|cards|, i requires 0 <= i < |cards| => if cards[i].id == id then ApplyUpdate(cards[i], u) else cards[i])
  }

  /** An update that does not touch the id keeps every card's id, so the
      list's ids are those it had. */
  lemma UpdateKeepsIds(cards: seq<CreditCard>, id: string, u: CardUpdate)
    requires !u.SetId?
    ensures forall i :: 0 <= i < |cards| ==> UpdateCard(cards, id, u)[i].id == cards[i].id
  {
  }

  /** Repeating an update changes nothing more, unless it moves the cards to
      a different id. */
  lemma UpdateIdempotent(cards: seq<CreditCard>, id: string, u: CardUpdate)
    requires !u.SetId? || u.id == id
    ensures UpdateCard(UpdateCard(cards, id, u), id, u) == UpdateCard(cards, id, u)
  {
    var once := UpdateCard(cards, id, u);
    forall i | 0 <= i < |cards|
      ensures UpdateCard(once, id, u)[i] == once[i]
    {
      ApplyUpdateIdempotent(cards[i], u);
    }
  }

  /** A card takes part in the debt summary when it has a positive balance
      and a positive APR. */
  predicate IsValid(c: CreditCard)
  {
    c.balance > 0.0 && c.apr > 0.0
  }

  function ValidCards(cards: seq<CreditCard>): (r: seq<CreditCard>)
    ensures |r| <= |cards|
    ensures forall c :: c in r <==> c in cards && IsValid(c)
  {
    Filter(cards, IsValid)
  }

  /** `cards.some(c => c.balance > 0 && c.apr > 0)` */
  predicate HasValidCards(cards: seq<CreditCard>)
  {
    exists c :: c in cards && IsValid(c)
  }

  /** The single-file component asks for at least one valid card after
      filtering; that is the same question. */
  lemma HasValidCardsIffFiltered(cards: seq<CreditCard>)
    ensures HasValidCards(cards) <==> |ValidCards(cards)| >= 1
  {
    if HasValidCards(cards) {
      var c :| c in cards && IsValid(c);
      assert c in ValidCards(cards);
    }
    if |ValidCards(cards)| >= 1 {
      assert ValidCards(cards)[0] in ValidCards(cards);
    }
  }
}
