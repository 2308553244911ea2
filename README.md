# Chkoba capture engine

This is a Dafny model of the rule engine behind a chkoba (chkobba) card game. It covers four parts:

- the 40-card deck and drawing from it;
- a player's hand, from which a card is played by position or by value;
- the shared table;
- the capture rule that decides what a played card takes from the table.

The capture rule is applied in priority order:

1. **Direct match.** If some table card has the played card's value, the first such card in table order is taken.
2. **Subset sum.** Otherwise, among all combinations of table cards whose values add up to the played value, the one with the most cards is taken. The first such combination in enumeration order wins.
3. **No capture.** Otherwise the played card is laid at the end of the table.

Captured cards go to the player's pile, played card first.

## Structure

| file | module | contents |
|---|---|---|
| `results.dfy` | `Results` | `Option`, `Result` and the four error kinds. |
| `cards.dfy` | `Cards` | Rank labels, suits, card values and the canonical deck as a function. |
| `card_lists.dfy` | `CardLists` | Value sums, and removal of a card's first occurrence (Python's `list.remove`). |
| `hand_rules.dfy` | `HandRules` | `TakeCard`, a function giving what `use_card` takes from a hand for each kind of selector. |
| `capture.dfy` | `Capture` | Combinations of table positions, the enumeration order of `itertools.combinations`, the choice `max(matches, key=len)` makes, and `Resolve`, the outcome of a play as a function of the table and the played card. |
| `deck.dfy` | `Deck` | The classes `ChkobaDeck`, `PlayerHand` and `Table`. |
| `examples.dfy` | `CaptureExamples` | Small plays worked out against `Resolve`. |

The classes in `deck.dfy` hold the source's mutable lists as `seq` fields.

- Their methods update those fields with the same loops the source uses:
  - the nested loops that build the deck;
  - the pop loop of `draw`;
  - the scan for a same-value card;
  - the loop over combination sizes;
  - the removal loop for the captured cards.
- Each method is proved against the pure functions of the other modules.
- The properties of the game are proved as lemmas about those functions: card conservation, maximality, first-match choice and the error cases.

The source takes one argument `card_or_index` that may be `None`, an `int` or a `Card`. The model replaces it with `Selector = Front | ByIndex(i) | ByCard(c)`. Each `list | Card` argument becomes two entry points, for example `AddCards` and `AddCard`.

Exceptions become `Failure` results:

| source | model |
|---|---|
| `IndexError` from `draw` | `InsufficientCards` |
| `IndexError` for an empty hand | `EmptyHand` |
| `IndexError` for a bad index | `IndexOutOfRange` |
| `ValueError` for an absent card | `CardNotFound` |

The docstring of `use_card` says a missing index raises `ValueError`, but the code raises `IndexError` (deck.py:168-169). The model follows the code.

The card record's fields `card` and `type` are called `rank` and `suit` here. The rank labels `1..7, "Q", "J", "K"` become the constructors `One .. Seven, Q, J, K`. Their values are 1..10, as in `VAL_CARDS`.

## Model

| member | source | states |
|---|---|---|
| Cards.ValCards | deck.py:6-15 | `VAL_CARDS` as a function of the rank label. Its own contract bounds every value to 1..10, and `RankValues` gives each value. |
| Cards.DeckCard | deck.py:30-32 | The card the nested loops append at position k. Its contract says that card carries its rank's value, and `DeckCardAt` says which rank and suit it has. |
| Cards.FullDeck | deck.py:28-33 | The list `create_full_deck` returns. Its contract gives 40 cards; `FullDeckDistinct`, `FullDeckHasEveryCard` and `FullDeckWellFormed` state the rest. |
| Cards.RankValues | deck.py:5-15 | The k-th rank label in `CARDS` is worth k + 1, so every value lies in 1..10 and each value belongs to exactly one label. |
| Cards.DeckCardAt | deck.py:30-32 | Position 4·ri + si of the deck holds the ri-th rank label in the si-th suit, with its value from `VAL_CARDS`. |
| Cards.FullDeckDistinct | deck.py:28-33 | The canonical deck has exactly 40 cards, and no two positions hold equal cards. |
| Cards.FullDeckHasEveryCard | deck.py:28-33 | Every (rank, suit) pair appears in the deck with its proper value. |
| Cards.FullDeckWellFormed | deck.py:28-33 | Every card of the deck carries `VAL_CARDS` of its rank, a value in 1..10. |
| CardLists.SumVals | deck.py:75 | The built-in `sum` over card values, also used for the combination test at deck.py:113. It has no contract of its own; `SumValsAppend`, `SumValsBounds`, `RemoveSum` and `RemoveEachSum` state how it behaves. |
| CardLists.FirstIndex | deck.py:174 | The position `list.remove` acts on: it holds the card, and no earlier position does. |
| CardLists.Remove | deck.py:103 | Removing a present card shortens the list by one and takes exactly one copy of that card out of its multiset. |
| CardLists.RemoveEach | deck.py:120-121 | Removing the captured cards one after another leaves the table's multiset minus theirs. |
| CardLists.RemoveEachStep | deck.py:120-121 | Each pass of the removal loop removes the next captured card from what the earlier passes left, and that card is still present. |
| CardLists.SumValsAppend | deck.py:75 | The value sum of two lists joined is the sum of their sums. |
| CardLists.RemoveSum | deck.py:103 | Removing a card lowers the value sum by that card's value. |
| CardLists.RemoveEachSum | deck.py:120-121 | Removing the captured cards lowers the table's value sum by theirs. |
| CardLists.SplitDistinct | deck.py:44-47 | Splitting a list without repeats at n leaves a suffix without repeats that shares no card with the first n, so drawn cards have left the deck. |
| CardLists.SumValsBounds | deck.py:72-75 | For well-formed cards the total lies between the count and ten times the count, and the total of an empty table is 0. |
| HandRules.TakeCard | deck.py:159-179 | What `use_card` does to a hand. Its contract says a success returns a card of the hand and leaves one card fewer; `TakeCardFails`, `TakeCardRemovesPosition` and `TakeCardConserves` state each case. |
| HandRules.TakeCardFails | deck.py:159-179 | Each error occurs exactly under its condition. An empty hand fails whatever the selector. An index outside 0..len-1 fails, and so does an absent card. Otherwise the play succeeds. |
| HandRules.TakeCardRemovesPosition | deck.py:162-177 | A successful use returns the selected card. That is the front card, the indexed card, or the first occurrence of the named card. Every other card keeps its order. |
| HandRules.TakeCardConserves | deck.py:159-177 | A successful use neither creates nor loses cards: the old hand is the new hand plus the returned card. |
| Capture.FirstOfSize | deck.py:110-114 | The combination of r table positions found first in enumeration order is a strictly increasing list of positions whose cards sum to the played value. |
| Capture.LargestUpTo | deck.py:110-118 | What `max(matches, key=len)` returns over sizes 1..r is a non-empty combination of at most r cards summing to the value. |
| Capture.BestCombination | deck.py:107-118 | The combination the subset-sum rule takes. Its contract says it is a non-empty combination summing to the value; `BestCombinationIsLargestFirst` shows it is the largest one and the first of its size. |
| Capture.Resolve | deck.py:99-127 | The decision `play_card` makes after the card leaves the hand. Its contract says a capture starts with the played card and holds at least one table card. `DirectMatch`, `SubsetMatch`, `NoCapture`, `Conserves`, `LeftoverInOrder` and `TotalValueAfterPlay` state what it does in each case. |
| Capture.ValIndex | deck.py:100-101 | The direct-match scan stops at the first table card of the played value, and at the table's end when there is none. |
| Capture.PickedSubmultiset | deck.py:120-121 | The cards of a combination are a sub-multiset of the table, so every removal in the capture loop finds its card. |
| Capture.FirstOfSizeIsFirst | deck.py:111-114 | For each size the enumeration finds a match whenever one exists, and the one it finds comes no later than any other, lexicographically. |
| Capture.LargestUpToMaximal | deck.py:116-118 | No combination summing to the value has more cards than the chosen one. |
| Capture.LargestIsFirstOfSize | deck.py:110-118 | The chosen combination is the first match in enumeration order among those of its size. |
| Capture.BestCombinationIsLargestFirst | deck.py:107-118 | A combination exists exactly when one summing to the value exists. It has the largest possible size. Among equal-size matches it comes first in `combinations` order. |
| Capture.RemoveIsSkip | deck.py:103 | `list.remove` deletes exactly the position of the first occurrence and keeps every other card in order. |
| Capture.RemoveKeepsOrder | deck.py:121 | One `remove` on a list read from the table at increasing positions leaves a list read at increasing positions, with one position fewer. |
| Capture.KeptPositions | deck.py:120-121 | The removal loop leaves the table read at an increasing list of its positions, one fewer for each card removed. |
| Capture.DirectMatch | deck.py:99-105 | When the first card of the played value sits at k, the play captures `[played, t[k]]`, and the table loses exactly position k with its order kept. |
| Capture.SubsetMatch | deck.py:107-123 | With no direct match but some summing combination, the play captures the played card followed by a largest summing combination in table order, and those cards leave the table. |
| Capture.NoCapture | deck.py:116-127 | Nothing is captured exactly when no non-empty combination of table cards sums to the played value, and then the played card is appended to the table. |
| Capture.Conserves | deck.py:96-127 | The table plus the played card equals, as a multiset, the new table plus the captured cards. |
| Capture.LeftoverInOrder | deck.py:99-123 | After any capture, direct or subset, the cards left on the table keep their table order. The new table is the old one read at increasing positions, one fewer for each table card captured. |
| Capture.TotalValueAfterPlay | deck.py:99-127 | A capture lowers the table total by the played value, and the captured cards total twice that value. No capture raises the table total by the played value. |
| Deck.Shuffled | deck.py:39 | The swap pass of `random.shuffle`. It has no contract of its own; `ShuffledStep`, `ShuffledPermutes` and `ShuffledDistinct` state how it behaves. |
| Deck.ShuffledStep | deck.py:39 | Each step swaps position i with a drawn position in 0..i and continues from i - 1. |
| Deck.ShuffledDistinct | deck.py:39 | Shuffling a deck without repeats leaves it without repeats. |
| Deck.SwapDistinct | deck.py:38-39 | A swap of two positions keeps a deck without repeats free of repeats. |
| Deck.ShuffledPermutes | deck.py:38-39 | Fisher-Yates reorders the deck without adding or losing cards. |
| Deck.PlayConserves | deck.py:96-127 | Over a whole play the multiset of hand, table and pile is unchanged. |
| Deck.ChkobaDeck.constructor | deck.py:23-24 | A new deck holds the canonical deck, so no card appears in it twice (the class invariant `Valid`). |
| Deck.ChkobaDeck.CreateFullDeck | deck.py:28-33 | The nested loops build exactly the canonical deck, rank-major and suit-minor. |
| Deck.ChkobaDeck.Len | deck.py:35-36 | The length is the number of cards left. |
| Deck.ChkobaDeck.Shuffle | deck.py:38-39 | The deck becomes the Fisher-Yates reordering that the drawn positions determine. It is a permutation of the old deck and still holds no card twice. |
| Deck.ChkobaDeck.SwapPass | deck.py:39 | The swap loop computes exactly `Shuffled` of its input. |
| Deck.ChkobaDeck.Draw | deck.py:41-47 | Asking for more cards than remain fails and leaves the deck unchanged. Otherwise the draw returns exactly the first n cards in order, the deck keeps the rest, and its length drops by n. A count of zero or less draws nothing. The deck still holds no card twice, and no drawn card remains in it. |
| Deck.PlayerHand.constructor | deck.py:132-134 | A new hand holds the optional first card, and the pile is empty. |
| Deck.PlayerHand.ReceiveCards | deck.py:136-138 | The cards are appended to the hand in order, and the pile is untouched. |
| Deck.PlayerHand.ReceiveCard | deck.py:139-140 | One card is appended to the hand. |
| Deck.PlayerHand.UseCard | deck.py:149-179 | The hand becomes what `TakeCard` leaves and the selected card is returned. On every error the hand is unchanged. |
| Deck.PlayerHand.CollectCards | deck.py:187-188 | The captured cards are appended to the pile in order, and the hand is untouched. |
| Deck.PlayerHand.CollectCard | deck.py:189-190 | One card is appended to the pile. |
| Deck.Table.constructor | deck.py:51-52 | A new table is empty. |
| Deck.Table.AddCards | deck.py:54-56 | The cards are appended to the table in order. |
| Deck.Table.AddCard | deck.py:57-58 | One card is appended to the table. |
| Deck.Table.Len | deck.py:69-70 | The length is the number of table cards. |
| Deck.Table.GetTotalValue | deck.py:72-75 | The result is the sum of the table's values, 0 when the table is empty, and the table is not modified. |
| Deck.Table.FirstSameValue | deck.py:100-101 | The scan returns the position of the first card of the played value, or the table's length when there is none. |
| Deck.Table.LargestCombination | deck.py:108-118 | The loop over sizes 1..len returns the combination `max(matches, key=len)` selects, or none when no combination sums to the value. |
| Deck.Table.RemoveCards | deck.py:120-121 | Removing the captured cards one by one gives the table minus them, first occurrences first. |
| Deck.Table.PlayCard | deck.py:76-127 | If the card cannot be taken from the hand, the call fails with that error and changes nothing. Otherwise the hand loses the card and the table becomes the new table `Resolve` gives. The captured cards, played card first, are returned and appended to the pile. In every case hand + table + pile is conserved as a multiset. |
| CaptureExamples.DirectMatchExample | deck.py:80-81 | Playing a 5 on a table [5, 3] captures the 5 and leaves [3]. |
| CaptureExamples.SubsetChoice | deck.py:82-83 | On a table [2, 3] a played 5 selects both positions. |
| CaptureExamples.SubsetExample | deck.py:82-83 | On a table [2, 3] a played 5 captures the 5, the 2 and the 3, in that order. |
| CaptureExamples.SubsetClearsTable | deck.py:82-83 | That capture leaves the table empty. |
| CaptureExamples.OnlyOneToOneTwo | deck.py:84-85 | On a table [1, 1, 2, 3] the only three-card combination summing to 4 is 1 + 1 + 2. |
| CaptureExamples.GreedyChoice | deck.py:84-85 | On a table [1, 1, 2, 3] a played 4 prefers 1 + 1 + 2 to 1 + 3. |
| CaptureExamples.GreedyExample | deck.py:84-85 | That play captures the 4, 1, 1 and 2 in that order. |
| CaptureExamples.GreedyLeftover | deck.py:84-85 | That play leaves only the 3, as a multiset. |
| CaptureExamples.GreedyLeavesThree | deck.py:84-85 | That play leaves the table [3]. |
| CaptureExamples.EmptyTableExample | deck.py:86 | A card played on an empty table captures nothing and becomes the table. |

## Left out

- `random.seed` and the constructor's `seed` parameter (deck.py:23-25) are not modelled. `Deck.ChkobaDeck.constructor` takes no seed.
- Deck.ChkobaDeck.Shuffle: the swap loop of the library's `random.shuffle` (Fisher-Yates from the last position down) is modelled, but its random source `randbelow` is not: the swap position for position i is `pick(i) % (i + 1)` for a parameter `pick`. Which permutation a given seed produces is not captured.
- The `view` methods (deck.py:62-67, 142-147) only print, and are not modelled.
- The `isinstance` dispatch and its `TypeError` branches (deck.py:55-60, 137-140, 172-179, 187-190) are not modelled. The `Selector` datatype and the single-card and list entry points make an argument of the wrong type impossible.
- Deck.Table.LargestCombination does not build the `matches` list (deck.py:109-114).
  - For each size it keeps only the first matching combination, which is the only one `max(matches, key=len)` can return.
  - The inner enumeration over `itertools.combinations` is the pure function `Capture.FirstOfSize`, not a loop.
- The text of exception messages is not modelled; only the error kind is.
- Capture.LeftoverInOrder: the table after a subset capture is stated as the old table read at increasing positions, with the old multiset minus the captured cards. It is not stated to be exactly the old table with the chosen positions deleted. When equal cards sit on the table, those two statements can differ in which copy is left. The first-of-its-size choice makes them agree, but that is not proved.
- The comment at deck.py:112 mentions numpy, but the code uses the built-in `sum`, which `SumVals` models.
- Python integers are unbounded, like Dafny's `int`, so no overflow is modelled.
