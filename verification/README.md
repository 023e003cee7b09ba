# Poker winner selection in TexasHoldEm, modelled in Dafny

This project models the hand-comparison core of the TexasHoldEm app. That core is
`determineWinner(hands:)` and `handRank(hand:type:)` in `TexasHoldEm/CardsView.swift`.

- `handRank` builds a dictionary from card value to number of occurrences. It then
  computes an integer tie-break value for the hand within a given category:
  - pair, three of a kind, four of a kind: the largest value whose count equals the
    category's raw value, or 0;
  - full house: the triple's value times 100 plus the pair's value;
  - two pair: the higher pair times 100 plus the lower pair;
  - every other category: the highest card.
- `determineWinner` folds over the hands. It keeps the best hand, the best category
  and the best tie-break value, and it force-unwraps the best hand at the end.

Two quirks of the code are modelled exactly as written, and lemmas show their effect:

1. Pair, three of a kind and four of a kind filter on the category's raw value
   (2, 4 and 8), not on the group size. Only pair lines up. In a five-card hand the
   four-of-a-kind value is always 0. A genuine three of a kind also ranks 0.
2. `bestHandRank` is written only when a hand ties the current best category. A
   strict category upgrade leaves the old value in place: the initial 0, or a value
   earned in a lower category, such as a high-card hand's highest card. So
   the returned hand has the largest category, but within that category it need not
   have the largest tie-break value. Listing the app's own two initial hands in
   reverse order makes the weaker two pair win.

Where the intended poker rule and the code differ, the code is modelled. This covers
the raw-value filter, the stale tie-break value, and the trap on an input that sets
no best hand.

Modules:
- `Optional` (optional.dfy): `Option`, standing in for Swift optionals.
- `Cards` (cards.dfy): cards, hands and the ten categories with their raw values.
- `Counts` (counts.dfy): the value-count dictionary, its keys, the count filter, `max`
  and `sorted(by: >)`.
- `Ranking` (ranking.dfy): `handRank`.
- `RankingFacts` (ranking_facts.dfy): what the tie-break values imply.
- `Winner` (winner.dfy): `determineWinner`, as a pure step/run fold and as a method
  with a loop.
- `WinnerFacts` (winner_facts.dfy): lemmas and concrete scenarios about the winner.

The classifier `determineHandType` is a parameter `classify: Hand -> HandType` of the
winner code. Every property proved about the winner holds for any classifier. A card
carries two integers: `value`, the one `handRank` sees after mapping the whole text
token, and `leadValue`, the one the classifier sees after mapping the token's first
character. Cards that `handRank` cannot tell apart can still differ for the
classifier. The mapping itself is outside the model, and several lemmas assume the
idealised range 2 to 14 for `value` (see "Left out").

## Model

| member | source | states |
|---|---|---|
| Cards.RawValue | TexasHoldEm/CardsView.swift:170 | the category raw value that line 170 compares counts with lies in 1 to 10, and high card is exactly the category with raw value 1, so every other category outranks it |
| Counts.ValueCounts | TexasHoldEm/CardsView.swift:163-165 | the dictionary built by the reduce has a key for exactly the values in the hand, and each key maps to that value's number of occurrences |
| Counts.Keys | TexasHoldEm/CardsView.swift:170 | the dictionary's keys, each exactly once, are exactly the values occurring in the hand |
| Counts.KeysWithCount | TexasHoldEm/CardsView.swift:170 | filtering the dictionary on a count keeps exactly the keys with that count, still without repeats |
| Counts.MaxOf | TexasHoldEm/CardsView.swift:170 | `max()` is None only on an empty collection; otherwise it is an element no smaller than any other |
| Counts.SortDescending | TexasHoldEm/CardsView.swift:184 | `sorted(by: >)` returns a permutation of its input in non-increasing order |
| Counts.SortDistinct | TexasHoldEm/CardsView.swift:184 | sorting keys without repeats with `sorted(by: >)` gives the same keys, as many of them, in strictly decreasing order |
| Ranking.CountsOf | TexasHoldEm/CardsView.swift:163-165 | a hand's value-count dictionary counts each of its card values by multiplicity |
| Ranking.WithCount | TexasHoldEm/CardsView.swift:170 | the filtered keys are exactly the card values occurring exactly c times |
| Ranking.GroupValue | TexasHoldEm/CardsView.swift:170 | `filter{..}.keys.max() ?? 0` is the largest value occurring exactly c times, or 0 when none does |
| Ranking.HighestValue | TexasHoldEm/CardsView.swift:176-181 | the highest-card value is a card of the hand at least as large as every card, or 0 for a hand with no cards |
| Ranking.PairValues | TexasHoldEm/CardsView.swift:184 | the pair list holds exactly the values occurring twice, in strictly decreasing order |
| Ranking.LargestWithCountIntro | TexasHoldEm/CardsView.swift:170 | a value occurring exactly c times that no other value occurring c times exceeds is what `filter{..}.keys.max()` returns |
| Ranking.FullHouseValue | TexasHoldEm/CardsView.swift:171-175 | the full-house value is 100 times the largest value occurring three times plus the largest value occurring twice, each 0 when absent |
| Ranking.AtLeastTwoPairValues | TexasHoldEm/CardsView.swift:184-185 | a hand in which two different values each occur exactly twice yields a pair list of at least two entries, so `pairs[1]` exists |
| Ranking.FirstTwoPairValuesAreTop | TexasHoldEm/CardsView.swift:184-185 | the first two entries of the sorted pair list are the highest pair and the next pair below it |
| Ranking.TwoPairValue | TexasHoldEm/CardsView.swift:182-185 | given at least two pairs, the two-pair value is 100 times the highest pair plus the next pair below it |
| Ranking.HandRank | TexasHoldEm/CardsView.swift:162-187 | the tie-break value per category: the largest value whose count equals the raw value for pair, three and four of a kind; triple*100+pair for a full house; top pair*100+second pair for two pair; the highest card otherwise; two pair needs two pairs |
| RankingFacts.FourOfAKindRankIsZero | TexasHoldEm/CardsView.swift:168-170 | four of a kind filters for a count of 8, so in any hand of fewer than 8 cards its tie-break value is 0 |
| RankingFacts.ThreeOfAKindRankIgnoresTriple | TexasHoldEm/CardsView.swift:168-170 | three of a kind filters for a count of 4, so a five-card hand that holds a triple gets tie-break value 0 |
| RankingFacts.FullHouseParts | TexasHoldEm/CardsView.swift:173-175 | for card values in 0 to 14, the range of the card mapping, the full-house value splits into the triple's value times 100 and a pair part between 0 and 14 |
| RankingFacts.FullHouseTripleDominates | TexasHoldEm/CardsView.swift:171-175 | with card values in 0 to 14, the full house with the higher triple value has the larger tie-break value whatever the pairs are |
| RankingFacts.TwoPairParts | TexasHoldEm/CardsView.swift:184-185 | for card values in 0 to 14 the two-pair value is the top pair times 100 plus a second pair between 0 and 14, and between 2 and 14 for five cards valued 2 to 14 |
| RankingFacts.TwoPairTopDominates | TexasHoldEm/CardsView.swift:182-185 | with card values in 0 to 14, the two pair with the higher top pair value has the larger tie-break value whatever the lower pairs are |
| RankingFacts.FullHouseExample | TexasHoldEm/CardsView.swift:171-175 | nines over threes rank 903 and eights over kings rank 813 |
| RankingFacts.ZeroValuedTensExample | TexasHoldEm/CardsView.swift:163-175 | with tens valued 0, as the whole token "10" gives, three tens with two twos rank 2 as a full house and three twos with two threes rank 203 |
| RankingFacts.ZeroValuedFacesHaveNoTwoPairs | TexasHoldEm/CardsView.swift:163-165 | when four cards of two pairs all map to 0, no two values occur twice each, so the two-pair value at lines 184-185 is undefined |
| Winner.Step | TexasHoldEm/CardsView.swift:144-156 | one iteration never lowers the best category; it ignores a lower category; a higher category takes the hand and keeps the stored tie-break value unchanged; a same-category hand with a strictly larger value becomes the best hand and its value is stored; a same-category hand with a value not above the stored one changes nothing, so the earlier hand keeps exact ties; the tie-break value only ever rises, and only on a same-category hand; a kept hand's category stays the stored category; the two-pair value is needed only for a same-category hand |
| Winner.Run | TexasHoldEm/CardsView.swift:139-157 | after any prefix of hands, the kept hand is one of them and has the stored category, no hand means the initial state, and the stored category is at least every seen hand's category |
| Winner.RunFindsWinnerIff | TexasHoldEm/CardsView.swift:139-159 | the final force-unwrap succeeds exactly when some hand is above high card or has a positive high-card value |
| Winner.ValidHandsHaveWinner | TexasHoldEm/CardsView.swift:150-159 | a non-empty list of hands with card values 2 to 14 never reaches the trap |
| Winner.DetermineWinner | TexasHoldEm/CardsView.swift:138-160 | the loop returns one of the hands, with the largest category among them, and agrees with the pure fold |
| WinnerFacts.TopCategoryKept | TexasHoldEm/CardsView.swift:143-157 | the hand of the strictly best category is the kept hand at the end with the stored category: it is taken at its own turn and no later hand displaces it |
| WinnerFacts.SecondOfCategoryNeedsOnlyPositiveRank | TexasHoldEm/CardsView.swift:147-155 | of two hands of one category above high card, the second wins exactly when its own tie-break value is positive; the first hand's value is never consulted |
| WinnerFacts.StaleRankFromLowerCategory | TexasHoldEm/CardsView.swift:147-155 | after a high-card hand, a hand of a higher category is taken with the high card's value still stored; a third hand of that category wins exactly when its own value beats that high card, and the second hand's value is never consulted |
| WinnerFacts.NineHighBlocksPairOfEights | TexasHoldEm/CardsView.swift:147-155 | nine high, then a pair of threes, then a pair of eights: the eights are compared with the stale 9, so the pair of threes wins although 3 < 8 |
| WinnerFacts.ThreesAndSixesRank | TexasHoldEm/CardsView.swift:182-185 | threes and sixes with a five rank 603 as two pair |
| WinnerFacts.FoursAndSevensRank | TexasHoldEm/CardsView.swift:182-185 | fours and sevens with a six rank 704 as two pair |
| WinnerFacts.InitialHandsWinner | TexasHoldEm/CardsView.swift:11-26 | the app's two initial hands, in their listed order, give fours and sevens as the winner |
| WinnerFacts.InitialHandsReversedPicksWeaker | TexasHoldEm/CardsView.swift:147-155 | in reverse order the same two hands give threes and sixes, the weaker two pair, because 603 is compared with the stale 0 |
| WinnerFacts.TriplesTieAtZero | TexasHoldEm/CardsView.swift:168-170 | triple twos and triple aces both rank 0, so whichever is seen first wins |

## Left out

- The classifier `determineHandType` (TexasHoldEm/Card Logic.swift:114-172) is not part of this model. It is the `classify` parameter, and no property depends on its logic.
- The card-text mapping `integerValue(of:)` is not part of this model; a card holds the two integers it yields, `value` for the whole token and `leadValue` for the first character. `handRank` maps the whole text token (TexasHoldEm/CardsView.swift:164), while the classifier maps only its first character. A ten's token "10" therefore reaches `handRank` as 0. If face cards arrive as words, as the capitalised display at TexasHoldEm/CardsView.swift:117 suggests, jacks to aces reach it as 0 too. `ZeroValuedTensExample` and `ZeroValuedFacesHaveNoTwoPairs` show what such values do inside the model.
- RankingFacts.FullHouseTripleDominates: compares mapped values, not cards. The whole-token mapping gives a ten 0, below a two, so a higher triple value is not always a higher card: three tens with two twos rank 2, below three twos with two threes at 203 (`ZeroValuedTensExample`).
- RankingFacts.TwoPairTopDominates: compares mapped values, not cards. A pair of tens is valued 0, so tens and twos rank 200 (twos over the tens), below threes and twos at 302.
- RankingFacts.TwoPairParts: the lower bound 2 on the second pair holds only for valid hands, valued 2 to 14; with a dealt ten the second pair can be 0.
- Winner.ValidHandsHaveWinner: assumes card values 2 to 14. A hand whose cards all map to 0, classified high card, would leave `bestHand` unset.
- The `Hand(cards:)` five-card check is not modelled. A hand holds any number of cards, and the lemmas that need five cards say so.
- The cached `handType` field of a hand is not modelled, since the fold recomputes the category through `classify`.
- Winner.DetermineWinner: requires every hand the classifier calls two pair to hold two pairs in `handRank`'s values. The code traps only for such a hand that reaches the equal-category comparison. The app's own classifier does not guarantee this requirement, because it reads a card's first character while `handRank` reads the whole token (`ZeroValuedFacesHaveNoTwoPairs`).
- Winner.Run: requires the same of every hand in the list, for the same reason; `Winner.Step` itself needs the two-pair value only of a same-category hand.
- Dictionary iteration order is not modelled. The keys are kept in order of first occurrence, and no result depends on their order.
- Swift's fixed-width `Int` is unbounded `int` here. With card values up to 14, the largest tie-break value is 1413, far from overflow.
- The SwiftUI view, pickers, buttons, the `Task` that fetches hands, the network layer, the `print` calls, the lookup of the winner's index, and the static placeholder hand are left out. They are presentation, I/O or debugging output.
