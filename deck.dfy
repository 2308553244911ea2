/** The game objects: the deck, the shared table and a player's hand, each a class whose
    list fields the methods update in place. */
module Deck {
  import opened Results
  import opened Cards
  import opened CardLists
  import opened HandRules
  import opened Capture

  /** Fisher-Yates as the deck shuffle runs it: positions i, i-1, ..., 1 in turn, each swapped
      with the position pick(i) % (i + 1) that the random source draws for it. */
  function Shuffled(s: seq<Card>, pick: nat -> nat, i: nat): seq<Card>
    requires i < |s|
    decreases i
  {
    if i == 0 then s
    else
      var j := pick(i) % (i + 1);
      Shuffled(s[i := s[j]][j := s[i]], pick, i - 1)
  }

  /** One step of the pass: position i is swapped with its drawn partner, which lies in
      0..i, and the pass goes on from i - 1. */
  lemma ShuffledStep(s: seq<Card>, pick: nat -> nat, i: nat)
    requires 0 < i < |s|
    ensures var j := pick(i) % (i + 1);
      0 <= j <= i && Shuffled(s, pick, i) == Shuffled(s[i := s[j]][j := s[i]], pick, i - 1)
  {
  }

  /** Exchanging two positions keeps the same cards. */
  lemma SwapPermutes(s: seq<Card>, i: nat, j: nat)
    requires i < |s| && j < |s|
    ensures multiset(s[i := s[j]][j := s[i]]) == multiset(s)
  {
    if i != j {
      var a, b := s[i], s[j];
      var s1 := s[i := b];
      assert multiset(s1) == multiset(s) - multiset{a} + multiset{b};
      assert s1[j] == b;
      assert multiset(s1[j := a]) == multiset(s1) - multiset{b} + multiset{a};
    }
  }

  /** Exchanging two positions of a list without repeats leaves it without repeats. */
  lemma SwapDistinct(s: seq<Card>, i: nat, j: nat)
    requires i < |s| && j < |s| && Distinct(s)
    ensures Distinct(s[i := s[j]][j := s[i]])
  {
    var s' := s[i := s[j]][j := s[i]];
    forall p, q | 0 <= p < q < |s'|
      ensures s'[p] != s'[q]
    {
      var p' := if p == j then i else if p == i then j else p;
      var q' := if q == j then i else if q == i then j else q;
      assert s'[p] == s[p'] && s'[q] == s[q'] && p' != q';
    }
  }

  /** Shuffling a deck without repeats gives a deck without repeats. */
  lemma {:induction false} ShuffledDistinct(s: seq<Card>, pick: nat -> nat, i: nat)
    requires i < |s| && Distinct(s)
    ensures Distinct(Shuffled(s, pick, i))
    decreases i
  {
    if i > 0 {
      var j := pick(i) % (i + 1);
      SwapDistinct(s, i, j);
      ShuffledDistinct(s[i := s[j]][j := s[i]], pick, i - 1);
    }
  }

  /** Shuffling only reorders: the same cards, each as often as before. */
  lemma {:induction false} ShuffledPermutes(s: seq<Card>, pick: nat -> nat, i: nat)
    requires i < |s|
    ensures |Shuffled(s, pick, i)| == |s|
    ensures multiset(Shuffled(s, pick, i)) == multiset(s)
    decreases i
  {
    if i > 0 {
      var j := pick(i) % (i + 1);
      SwapPermutes(s, i, j);
      ShuffledPermutes(s[i := s[j]][j := s[i]], pick, i - 1);
    }
  }

  /** The bookkeeping of a play: a card c leaves the hand, table plus c becomes the new
      table plus the captured cards, and the captured cards join the pile. */
  lemma Rebalance(hand: multiset<Card>, rest: multiset<Card>, c: Card, table: multiset<Card>,
                  table': multiset<Card>, captured: multiset<Card>, pile: multiset<Card>)
    requires hand == rest + multiset{c}
    requires table + multiset{c} == table' + captured
    ensures rest + table' + (pile + captured) == hand + table + pile
  {
    calc {
      hand + table + pile;
      rest + multiset{c} + table + pile;
      rest + (table + multiset{c}) + pile;
      rest + (table' + captured) + pile;
      rest + table' + (pile + captured);
    }
  }

  /** A whole play conserves cards: what leaves the hand and the table ends up on the table
      or in the pile, and nothing else appears. */
  lemma PlayConserves(h: seq<Card>, sel: Selector, t: seq<Card>, pile: seq<Card>)
    requires TakeCard(h, sel).Success?
    ensures var tk := TakeCard(h, sel).value; var o := Resolve(t, tk.card);
      multiset(tk.rest) + multiset(o.table) + multiset(pile + o.captured)
        == multiset(h) + multiset(t) + multiset(pile)
  {
    var tk := TakeCard(h, sel).value;
    var o := Resolve(t, tk.card);
    TakeCardConserves(h, sel);
    Conserves(t, tk.card);
    Rebalance(multiset(h), multiset(tk.rest), tk.card, multiset(t), multiset(o.table),
              multiset(o.captured), multiset(pile));
  }

  class ChkobaDeck {
    var deck: seq<Card>

    /** The deck never holds the same card twice. */
    ghost predicate Valid()
      reads this
    {
      Distinct(deck)
    }

    /** A new deck holds the canonical 40 cards in enumeration order, each once. */
    constructor ()
      ensures deck == FullDeck()
      ensures Valid()
    {
      var d := CreateFullDeck();
      deck := d;
      FullDeckDistinct();
    }

    /** Builds the canonical deck: for each rank label in order, one card per suit in order. */
    static method CreateFullDeck() returns (d: seq<Card>)
      ensures d == FullDeck()
    {
      d := [];
      for ri := 0 to |CARDS|
        invariant |d| == 4 * ri
        invariant forall k :: 0 <= k < |d| ==> d[k] == DeckCard(k)
      {
        for si := 0 to |TYPE|
          invariant |d| == 4 * ri + si
          invariant forall k :: 0 <= k < |d| ==> d[k] == DeckCard(k)
        {
          var card := CARDS[ri];
          AppendDeckCard(d, ri, si);
          d := d + [Card(card, TYPE[si], ValCards(card))];
        }
      }
    }

    /** The number of cards left in the deck. */
    function Len(): (n: nat)
      reads this
      ensures n == |deck|
    {
      |deck|
    }

    /** Reorders the deck by Fisher-Yates, drawing the swap positions from pick. */
    method Shuffle(pick: nat -> nat)
      requires Valid()
      modifies this
      ensures Valid()
      ensures deck == if |old(deck)| == 0 then old(deck) else Shuffled(old(deck), pick, |old(deck)| - 1)
      ensures multiset(deck) == multiset(old(deck))
    {
      if |deck| > 0 {
        ShuffledPermutes(deck, pick, |deck| - 1);
        ShuffledDistinct(deck, pick, |deck| - 1);
        var d := SwapPass(deck, pick);
        deck := d;
      }
    }

    /** The swap loop of the shuffle: positions |s| - 1 down to 1, each exchanged with the
        position drawn for it. */
    static method SwapPass(s: seq<Card>, pick: nat -> nat) returns (d: seq<Card>)
      requires |s| > 0
      ensures d == Shuffled(s, pick, |s| - 1)
    {
      d := s;
      var i := |d| - 1;
      while i > 0
        invariant 0 <= i < |d|
        invariant Shuffled(d, pick, i) == Shuffled(s, pick, |s| - 1)
      {
        var j := pick(i) % (i + 1);
        ShuffledStep(d, pick, i);
        d := d[i := d[j]][j := d[i]];
        i := i - 1;
      }
    }

    /** Takes numCard cards from the front, or fails and leaves the deck as it was when fewer
        remain; a count of zero or less draws nothing. */
    method Draw(numCard: int := 1) returns (r: Result<seq<Card>>)
      requires Valid()
      modifies this
      ensures Valid()
      ensures r.Success? ==> forall c :: c in r.value ==> c !in deck
      ensures |old(deck)| < numCard ==> r == Failure(InsufficientCards) && deck == old(deck)
      ensures numCard <= |old(deck)| ==>
        var n := if numCard < 0 then 0 else numCard;
        && r == Success(old(deck)[..n])
        && deck == old(deck)[n..]
        && |deck| == |old(deck)| - n
    {
      if Len() < numCard {
        return Failure(InsufficientCards);
      }
      var drawCards := [];
      var i := 0;
      while i < numCard
        invariant 0 <= i <= (if numCard < 0 then 0 else numCard)
        invariant drawCards == old(deck)[..i] && deck == old(deck)[i..]
      {
        drawCards := drawCards + [deck[0]];
        deck := deck[1..];
        i := i + 1;
      }
      SplitDistinct(old(deck), i);
      return Success(drawCards);
    }
  }

  class PlayerHand {
    var hand: seq<Card>
    var pile: seq<Card>

    /** A hand starts with at most one card and an empty pile. */
    constructor (firstCard: Option<Card> := None)
      ensures hand == (if firstCard.Some? then [firstCard.value] else [])
      ensures pile == []
    {
      hand := if firstCard.Some? then [firstCard.value] else [];
      pile := [];
    }

    /** Appends cards to the end of the hand, in their order. */
    method ReceiveCards(cards: seq<Card>)
      modifies this
      ensures hand == old(hand) + cards && pile == old(pile)
    {
      hand := hand + cards;
    }

    /** Appends one card to the end of the hand. */
    method ReceiveCard(card: Card)
      modifies this
      ensures hand == old(hand) + [card] && pile == old(pile)
    {
      hand := hand + [card];
    }

    /** Removes and returns the selected card; on failure the hand is unchanged. */
    method UseCard(sel: Selector := Front) returns (r: Result<Card>)
      modifies this
      ensures match TakeCard(old(hand), sel)
        case Success(t) => r == Success(t.card) && hand == t.rest
        case Failure(e) => r == Failure(e) && hand == old(hand)
      ensures pile == old(pile)
    {
      if |hand| == 0 {
        return Failure(EmptyHand);
      }
      match sel
      case Front =>
        r := Success(hand[0]);
        hand := hand[1..];
      case ByIndex(i) =>
        if i < 0 || i >= |hand| {
          return Failure(IndexOutOfRange);
        }
        r := Success(hand[i]);
        hand := hand[..i] + hand[i + 1..];
      case ByCard(c) =>
        if c !in hand {
          return Failure(CardNotFound);
        }
        hand := Remove(hand, c);
        r := Success(c);
    }

    /** Appends captured cards to the pile, in their order. */
    method CollectCards(cards: seq<Card>)
      modifies this
      ensures pile == old(pile) + cards && hand == old(hand)
    {
      pile := pile + cards;
    }

    /** Appends one captured card to the pile. */
    method CollectCard(card: Card)
      modifies this
      ensures pile == old(pile) + [card] && hand == old(hand)
    {
      pile := pile + [card];
    }
  }

  class Table {
    var table: seq<Card>

    /** The table starts empty. */
    constructor ()
      ensures table == []
    {
      table := [];
    }

    /** Lays cards face up at the end of the table, in their order. */
    method AddCards(cards: seq<Card>)
      modifies this
      ensures table == old(table) + cards
    {
      table := table + cards;
    }

    /** Lays one card face up at the end of the table. */
    method AddCard(card: Card)
      modifies this
      ensures table == old(table) + [card]
    {
      table := table + [card];
    }

    /** The number of cards on the table. */
    function Len(): (n: nat)
      reads this
      ensures n == |table|
    {
      |table|
    }

    /** The sum of the values of the table cards; 0 for an empty table. */
    method GetTotalValue() returns (total: int)
      ensures total == SumVals(table)
    {
      if |table| == 0 {
        return 0;
      }
      total := SumVals(table);
    }

    /** The scan of the table for a card of the played value: the first position holding
        one, or |cards| when none does. */
    static method FirstSameValue(cards: seq<Card>, v: int) returns (i: nat)
      ensures i == ValIndex(cards, v)
    {
      i := 0;
      while i < |cards| && cards[i].val != v
        invariant i <= |cards|
        invariant forall j :: 0 <= j < i ==> cards[j].val != v
      {
        i := i + 1;
      }
    }

    /** The enumeration of combinations by increasing size r = 1..|cards|, keeping the first
        match of each size and returning that of the largest size: the combination
        max(matches, key=len) selects, or None when nothing sums to v. */
    static method LargestCombination(cards: seq<Card>, v: int) returns (best: Option<seq<int>>)
      ensures best == BestCombination(cards, v)
    {
      best := None;
      for r := 1 to |cards| + 1
        invariant best == LargestUpTo(cards, r - 1, v)
      {
        var comb := FirstOfSize(cards, 0, r, v);
        if comb.Some? {
          best := comb;
        }
      }
    }

    /** The loop removing each captured card from the table, first occurrence first. */
    static method RemoveCards(s: seq<Card>, cs: seq<Card>) returns (r: seq<Card>)
      requires multiset(cs) <= multiset(s)
      ensures r == RemoveEach(s, cs)
    {
      r := s;
      for k := 0 to |cs|
        invariant multiset(cs[..k]) <= multiset(s)
        invariant r == RemoveEach(s, cs[..k])
      {
        RemoveEachStep(s, cs, k);
        r := Remove(r, cs[k]);
      }
      assert cs[..|cs|] == cs;
    }

    /** Plays the selected card of player's hand against the table: a direct match takes the
        first table card of equal value; otherwise the largest combination of table cards
        summing to the played value is taken; otherwise the card is laid on the table. The
        captured cards, played card first, go to the player's pile and are returned. */
    method PlayCard(player: PlayerHand, sel: Selector := Front) returns (r: Result<seq<Card>>)
      modifies this, player
      ensures match TakeCard(old(player.hand), sel)
        case Failure(e) =>
          && r == Failure(e)
          && table == old(table) && player.hand == old(player.hand) && player.pile == old(player.pile)
        case Success(t) =>
          var o := Resolve(old(table), t.card);
          && r == Success(o.captured)
          && table == o.table
          && player.hand == t.rest
          && player.pile == old(player.pile) + o.captured
      ensures multiset(player.hand) + multiset(table) + multiset(player.pile)
           == old(multiset(player.hand) + multiset(table) + multiset(player.pile))
    {
      var used := player.UseCard(sel);
      if used.Failure? {
        return Failure(used.error);
      }
      var playedCard := used.value;
      ghost var o := Resolve(table, playedCard);
      var captured: seq<Card>;

      // direct match: the first table card of the same value
      var i := FirstSameValue(table, playedCard.val);
      if i < |table| {
        var tableCard := table[i];
        table := Remove(table, tableCard);
        captured := [playedCard, tableCard];
        player.CollectCards(captured);
      } else {
        // subset sum: the first match of the largest size that has one
        var best := LargestCombination(table, playedCard.val);
        if best.Some? {
          PickedSubmultiset(table, best.value, 0);
          assert table[0..] == table;
          var bestCards := Pick(table, best.value);
          table := RemoveCards(table, bestCards);
          captured := [playedCard] + bestCards;
          player.CollectCards(captured);
        } else {
          // no capture: the played card joins the table
          table := table + [playedCard];
          captured := [];
        }
      }
      assert captured == o.captured && table == o.table;
      PlayConserves(old(player.hand), sel, old(table), old(player.pile));
      return Success(captured);
    }
  }
}
