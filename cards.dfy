/** Card values and the canonical 40-card Chkobba deck. */
module Cards {

  /** The ten rank labels; the first seven are written as the numbers 1 to 7. */
  datatype Rank = One | Two | Three | Four | Five | Six | Seven | Q | J | K

  datatype Suit = S | H | C | D

  /** A card: rank label, suit and numeric value. Equality compares all three. */
  datatype Card = Card(rank: Rank, suit: Suit, val: int)

  /** The rank labels in enumeration order. */
  const CARDS: seq<Rank> := [One, Two, Three, Four, Five, Six, Seven, Q, J, K]

  /** The suits in enumeration order. */
  const TYPE: seq<Suit> := [S, H, C, D]

  /** The rank-to-value table: a numbered rank is worth its number, Q 8, J 9 and K 10. */
  function ValCards(r: Rank): (v: int)
    ensures 1 <= v <= 10
  {
    match r
    case One => 1
    case Two => 2
    case Three => 3
    case Four => 4
    case Five => 5
    case Six => 6
    case Seven => 7
    case Q => 8
    case J => 9
    case K => 10
  }

  /** A card built the way the deck builds them: its value is the one the table gives its rank. */
  predicate WellFormed(c: Card)
  {
    c.val == ValCards(c.rank)
  }

  /** The k-th card of the canonical deck: rank-major, suit-minor. */
  function DeckCard(k: nat): (c: Card)
    requires k < |CARDS| * |TYPE|
    ensures WellFormed(c)
  {
    var r := CARDS[k / |TYPE|];
    Card(r, TYPE[k % |TYPE|], ValCards(r))
  }

  /** Position ri * 4 + si holds the ri-th rank label in the si-th suit. */
  lemma DeckCardAt(ri: nat, si: nat)
    requires ri < |CARDS| && si < |TYPE|
    ensures 4 * ri + si < |CARDS| * |TYPE|
    ensures DeckCard(4 * ri + si) == Card(CARDS[ri], TYPE[si], ValCards(CARDS[ri]))
  {
    var k := ri * 4 + si;
    assert k / 4 == ri && k % 4 == si;
  }

  /** Appending the card at position 4 * ri + si extends a prefix of the deck by one. */
  lemma AppendDeckCard(d: seq<Card>, ri: nat, si: nat)
    requires ri < |CARDS| && si < |TYPE| && |d| == 4 * ri + si
    requires forall k :: 0 <= k < |d| ==> d[k] == DeckCard(k)
    ensures forall k :: 0 <= k < |d| + 1 ==>
      (d + [Card(CARDS[ri], TYPE[si], ValCards(CARDS[ri]))])[k] == DeckCard(k)
  {
    DeckCardAt(ri, si);
  }

  /** The canonical deck, in the order the nested enumeration produces it. */
  function FullDeck(): (d: seq<Card>)
    ensures |d| == 40
  {
    seq(|CARDS| * |TYPE|, k requires 0 <= k < |CARDS| * |TYPE| => DeckCard(k))
  }

  /** The k-th rank label is worth k + 1, so the values run over 1..10, each once. */
  lemma RankValues()
    ensures forall k :: 0 <= k < |CARDS| ==> ValCards(CARDS[k]) == k + 1
    ensures forall r: Rank :: 1 <= ValCards(r) <= 10
  {
  }

  /** The deck holds 40 cards and no two of them are equal. */
  lemma FullDeckDistinct()
    ensures |FullDeck()| == 40
    ensures forall i, j :: 0 <= i < j < |FullDeck()| ==> FullDeck()[i] != FullDeck()[j]
  {
  }

  /** Every rank label meets every suit in the deck. */
  lemma FullDeckHasEveryCard(r: Rank, s: Suit)
    ensures Card(r, s, ValCards(r)) in FullDeck()
  {
    var ri := ValCards(r) - 1;
    var si := match s case S => 0 case H => 1 case C => 2 case D => 3;
    assert CARDS[ri] == r && TYPE[si] == s;
    var k := ri * 4 + si;
    assert k / 4 == ri && k % 4 == si;
    assert FullDeck()[k] == Card(r, s, ValCards(r));
  }

  /** Every card of the deck carries the value of its rank, between 1 and 10. */
  lemma FullDeckWellFormed()
    ensures forall c :: c in FullDeck() ==> WellFormed(c) && 1 <= c.val <= 10
  {
    RankValues();
  }
}
