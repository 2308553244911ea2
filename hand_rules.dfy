/** What `use_card` takes out of a hand, as a function of the hand and the selector. */
module HandRules {
  import opened Results
  import opened Cards
  import opened CardLists

  /** How the player names the card to play: the front card, a position, or a card value. */
  datatype Selector = Front | ByIndex(index: int) | ByCard(card: Card)

  /** The card taken out and the hand that is left. */
  datatype Taken = Taken(card: Card, rest: seq<Card>)

  /** use_card on the hand h: the empty hand fails whatever the selector, an index must lie
      in 0..|h|-1, and a card must be present (its first occurrence is the one removed). */
  function TakeCard(h: seq<Card>, sel: Selector): (r: Result<Taken>)
    ensures r.Success? ==> r.value.card in h && |r.value.rest| == |h| - 1
  {
    if |h| == 0 then Failure(EmptyHand)
    else match sel
      case Front => Success(Taken(h[0], h[1..]))
      case ByIndex(i) =>
        if i < 0 || i >= |h| then Failure(IndexOutOfRange)
        else Success(Taken(h[i], h[..i] + h[i + 1..]))
      case ByCard(c) =>
        if c in h then Success(Taken(c, Remove(h, c))) else Failure(CardNotFound)
  }

  /** The position the selector picks, when it picks one. */
  function Position(h: seq<Card>, sel: Selector): int
  {
    match sel
    case Front => 0
    case ByIndex(i) => i
    case ByCard(c) => if c in h then FirstIndex(h, c) else -1
  }

  /** Each failure, and only it: empty hand first, then a bad index or an absent card. */
  lemma TakeCardFails(h: seq<Card>, sel: Selector)
    ensures TakeCard(h, sel) == Failure(EmptyHand) <==> h == []
    ensures TakeCard(h, sel) == Failure(IndexOutOfRange) <==>
              h != [] && sel.ByIndex? && !(0 <= sel.index < |h|)
    ensures TakeCard(h, sel) == Failure(CardNotFound) <==>
              h != [] && sel.ByCard? && sel.card !in h
    ensures TakeCard(h, sel).Success? <==> 0 <= Position(h, sel) < |h|
  {
  }

  /** A successful use removes exactly the selected position and keeps every other card in
      order: the front card, the indexed card, or the first card equal to the one named. */
  lemma TakeCardRemovesPosition(h: seq<Card>, sel: Selector)
    requires TakeCard(h, sel).Success?
    ensures var t := TakeCard(h, sel).value; var k := Position(h, sel);
      && 0 <= k < |h|
      && t.card == h[k]
      && (sel.ByCard? ==> t.card == sel.card && sel.card !in h[..k])
      && |t.rest| == |h| - 1
      && (forall j :: 0 <= j < k ==> t.rest[j] == h[j])
      && (forall j :: k <= j < |t.rest| ==> t.rest[j] == h[j + 1])
  {
  }

  /** Cards are neither created nor lost: the hand before is the hand after plus the card. */
  lemma TakeCardConserves(h: seq<Card>, sel: Selector)
    requires TakeCard(h, sel).Success?
    ensures multiset(h) == multiset(TakeCard(h, sel).value.rest) + multiset{TakeCard(h, sel).value.card}
  {
    match sel
    case Front =>
      assert h == [h[0]] + h[1..];
    case ByIndex(i) =>
      assert h == h[..i] + [h[i]] + h[i + 1..];
    case ByCard(c) =>
  }
}
