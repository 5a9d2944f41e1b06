# Poker hands, cards and deck

A model of `src/poker.py` of the poker kata: `Card`, `Hand` and `Deck`.

- **Card.** A card is an object with a rank score (0 for `2` to 12 for `A`) and a suit. It is built from a spec matching `^([AJQK2-9]|10)\s*([HDSC])$`. Cards compare by rank only, so `AS == AD`. The cards module proves the spec grammar sound and complete.
- **Hand.** A hand holds five cards in ascending rank order. It is built from a list of cards and specs, from a whitespace-separated string, or by dealing five cards from a deck.
  - `Hand.hand` gives one of ten categories. The model proves it equal to a reference classification that counts how often each rank occurs and looks at which suits occur. That reference ignores the order of the cards.
  - `Hand.score` is the index of the category name.
  - `==` and `<` compare the category first. A tie goes by the ranks, read from the highest position down. This is proved to be a strict total order on the keys (category, ranks).
  - Every classification, tie and comparison in the test script is proved about the faces its specs parse to. For the royal flush the whole path is proved: the string is split, its words are parsed into fresh cards, and the sorted hand is named a royal flush.
- **Deck.** A deck is a draw pile used as a stack, plus a discard pile. It holds 52 card objects, one per rank-suit pair. The deck keeps an invariant: each card it made is in exactly one place, the draw pile, the discard pile or dealt out.
  - `Deck.__contains__` and `Deck.discard` work by object identity. Cards are therefore Dafny class instances: two cards with the same rank and suit are different objects.
- **Exchange.** `Hand.exchange` is modelled as a function `Steps` over the three piles (hand, draw pile, discard pile). The methods are proved against it.
  - `Steps` takes the way the held card is found as a parameter: by rank (the code as written) or by object (the intended behaviour). See Findings.
  - A failed step keeps the partial state before the exception: Python mutates lists in place before raising.

Errors are a `Result`. `ValueError` splits by cause into InvalidCardSpec, InvalidHandSize, EmptyDeck and InsufficientCards. CardInDeck is the `AssertionError` of `Deck.discard`, CardNotHeld is the `ValueError` of `list.remove`, and MissingCategory is the `KeyError` of `Hand.hand`. `Hand.score`, `==` and `<` cannot return the `KeyError` inside a Dafny function that returns a category, so they return it as an error too.

The code ranks the ace-low straight (A-2-3-4-5) above the six-high straight, because its ace still scores 12 in the rank comparison. The model follows the code, and the test script asserts exactly this order.

Files: `outcomes.dfy` (Option, Result, errors), `seqs.dfy` (stable insertion sort as `sorted`, reversal, shuffle as an arbitrary permutation, distinctness), `cards.dfy`, `ranking.dfy` (`Hand.hand`, `Hand.score`, the key order and the test-script hands), `deck.dfy`, `hands.dfy` (`str.split()`, the `Hand` class and the exchange).

## Model

| member | source | states |
|---|---|---|
| Cards.SuitOfChar | src/poker.py:11-16 | a suit letter maps only to the suit whose key in `Card.suits` it is |
| Cards.RankPrefix | src/poker.py:17 | a recognised rank token at the head of the spec is exactly as long as the token `Card.values` holds for that score |
| Cards.ParseCard | src/poker.py:17-23 | every rejected spec is rejected with `ValueError` (InvalidCardSpec) |
| Cards.RankPrefixOfToken | src/poker.py:17 | the token of any score, followed by anything, is read as that score and that token length (including the two-character `10`) |
| Cards.ParseCardComplete | src/poker.py:17-24 | every spec of the grammar (rank token, any whitespace, suit letter) parses to exactly that rank and suit |
| Cards.ParseCardSound | src/poker.py:17-24 | every accepted spec is a rank token, then whitespace only, then the letter of the parsed suit: nothing else is accepted |
| Cards.ParseCardExamples | src/poker.py:17-24 | concrete specs: `AS`, `10S`, `2 \tH`, `QD` parse to their faces; `1S`, `1 0S`, `11S`, `AX`, `as`, `S` are rejected |
| Cards.Card.constructor | src/poker.py:19-24 | a card keeps the parsed score and suit |
| Cards.Card.Value | src/poker.py:50-52 | `Card.value`: the token `Card.values` holds for the card's score; Cards.ReparseCard shows it parses back to the card's rank |
| Cards.Card.Equal | src/poker.py:40-41 | `Card.__eq__`: equal scores, whatever the suits; Cards.CardComparisonByRank states its order properties |
| Cards.Card.Less | src/poker.py:43-44 | `Card.__lt__`: a lower score; Cards.CardComparisonByRank proves it a strict order that exactly one of `<`, `==`, `>` satisfies |
| Cards.Card.LessOrEqual | src/poker.py:8 | the `<=` that `total_ordering` derives: `<` or `==` |
| Cards.Card.Greater | src/poker.py:8 | the `>` that `total_ordering` derives: neither `<` nor `==` |
| Cards.Card.GreaterOrEqual | src/poker.py:8 | the `>=` that `total_ordering` derives: not `<` |
| Cards.NewCard | src/poker.py:19-24 | `Card(s)` succeeds exactly when the spec parses, giving a fresh object with the parsed rank and suit; otherwise `ValueError` |
| Cards.ReparseCard | src/poker.py:50-52 | formatting a card as `value + suit` and parsing it again gives back its rank and suit |
| Cards.CardComparisonByRank | src/poker.py:40-44 | `==` is rank equality ignoring the suit; exactly one of `<`, `==`, `>` holds; `<` and `==` are transitive; the `total_ordering` comparisons agree with `<` |
| Cards.TestScriptCards | src/tests.py:4-10 | `AS == AD`, `AS != KS`, `AS > KS` and `not AS < KS` for cards parsed from those specs |
| Ranking.Name | src/poker.py:61-72 | every category has a name in `Hand.values` |
| Ranking.IndexOf | src/poker.py:156 | `tuple.index`: the first position holding the name, or the length when there is none |
| Ranking.CategoryScore | src/poker.py:154-156 | `Hand.values.index(self.hand)`: a position in `Hand.values` that holds the category's name |
| Ranking.NamesDistinct | src/poker.py:61-72 | the ten category names are pairwise different |
| Ranking.CategoryScoreIsOrdinal | src/poker.py:154-156 | `Hand.score` of a category is its place in the weakest-first order, and no other category has its name |
| Ranking.LeadLength | src/poker.py:141-144 | the first group `groupby` yields is non-empty and no longer than the input |
| Ranking.LeadRun | src/poker.py:141-144 | the leading run is a run of equal ranks, and it is maximal |
| Ranking.Runs | src/poker.py:141-144 | the group lengths `groupby` yields, first group first; Ranking.RunsPositive and Ranking.GroupIff state what they are |
| Ranking.RunsPositive | src/poker.py:141-144 | every group `groupby` yields is non-empty, and the group lengths add up to the number of cards |
| Ranking.GroupIff | src/poker.py:141-152 | the group lengths of ascending scores contain `k` exactly when some rank occurs exactly `k` times |
| Ranking.TwoGroupsIff | src/poker.py:141-152 | the group lengths contain `k` twice exactly when two different ranks occur `k` times each |
| Ranking.SumAtLeastLength | src/poker.py:141-144 | the group lengths add up to at least their number (every group is non-empty) |
| Ranking.PartitionsOfFive | src/poker.py:145-152 | the sorted group lengths of five ranks are one of the six keys of the table or `(5,)` |
| Ranking.IsFlush | src/poker.py:133 | the suit test of `Hand.hand`: every card after the first has the first card's suit; Ranking.FlushIff characterises it |
| Ranking.IsStraight | src/poker.py:127-132 | `is_straight` on the ascending scores; Ranking.StraightIff characterises it |
| Ranking.Table | src/poker.py:145-152 | the dictionary of `Hand.hand`, with the straight test deciding the all-singletons entry; Ranking.TableMatchesGroups states what each lookup gives |
| Ranking.Classify | src/poker.py:124-152 | `Hand.hand` on the faces in the hand's order: the flush categories come out exactly when all five cards share a suit; Ranking.ClassifyMatchesReference relates it to the reference classification |
| Ranking.FlushIff | src/poker.py:133 | the suit test of `Hand.hand` holds exactly when all five cards share one suit, whatever the order |
| Ranking.WheelIff | src/poker.py:129 | the special-case straight is the ace-low straight A-2-3-4-5, in any order |
| Ranking.RoyalIff | src/poker.py:134 | the royal test holds exactly for the ranks 10-J-Q-K-A |
| Ranking.ConsecutiveIff | src/poker.py:131 | ascending scores equal `range(first, first + 5)` exactly when they are five consecutive ranks |
| Ranking.StraightIff | src/poker.py:127-132 | `is_straight` on ascending scores holds exactly when the ranks are five consecutive ranks or the ace-low straight |
| Ranking.GroupKey | src/poker.py:141-152 | the table key of five sorted scores tells which rank multiplicities occur (five, four, three, two, two pairs) |
| Ranking.TableMatchesGroups | src/poker.py:145-152 | looking the key up in the table gives the category the rank multiplicities call for, and a missing key only for five of a rank |
| Ranking.ClassifyMatchesReference | src/poker.py:124-152 | `Hand.hand` on a sorted hand is the reference classification by rank multiplicities and suits (royal, straight flush, flush, four, full house, three, two pair, pair, straight, high card) |
| Ranking.CategoryIgnoresOrder | src/poker.py:84 | the category of five faces, once sorted as a hand keeps them, depends only on which ranks and suits they hold |
| Ranking.FlushCategories | src/poker.py:133-139 | a one-suit hand is a royal flush, a straight flush or a flush, as its ranks say |
| Ranking.ClassifyFailsOnlyForFiveOfAKind | src/poker.py:145-152 | the table lookup raises `KeyError` exactly for five cards of one rank not of one suit |
| Ranking.ReferenceFails | src/poker.py:145-152 | the reference classification leaves out exactly five of a rank in mixed suits |
| Ranking.InHandOrder | src/poker.py:84 | `sorted(cards)`: the same faces, ascending by score |
| Ranking.KeyOfSorted | src/poker.py:84 | a hand's key depends only on which faces it holds: any order of them, once sorted, has the key of any ascending arrangement of them |
| Ranking.RevLexLess | src/poker.py:117-122 | the reversed scan of `Hand.__lt__`; Ranking.RevLexLessIff and Ranking.RevLexTrichotomy state what it decides |
| Ranking.KeyEqual | src/poker.py:108-111 | `Hand.__eq__` on keys: equal category ordinals and equal ranks position by position |
| Ranking.KeyLess | src/poker.py:113-122 | `Hand.__lt__` on keys: a lower category, or the same one and a lower scan; Ranking.KeyOrderIsTotal proves it a strict total order |
| Ranking.RevLexLessIff | src/poker.py:117-122 | the reversed scan answers "less" exactly when some position holds a smaller rank and every position above it holds equal ranks |
| Ranking.RevLexTrichotomy | src/poker.py:117-122 | the scan is asymmetric and irreflexive, and two rank sequences neither of which is less are equal |
| Ranking.RevLexTransitive | src/poker.py:117-122 | the scan order is transitive |
| Ranking.KeyOrderIsTotal | src/poker.py:108-122 | hand comparison is a strict total order on keys: `<` excludes `==` and `>`, one of the three always holds, and `<` is transitive |
| Ranking.CompareByKeys | src/poker.py:108-122 | two ranked hands compare as their keys do |
| Ranking.TestRoyalFlushHand | src/tests.py:29-51 | `Hand('AS 10S JS QS KS')` is a royal flush with ascending scores 8 9 10 11 12 |
| Ranking.TestStraightFlushWheel | src/tests.py:29-51 | `Hand('AS 2S 3S 4S 5S')` is a straight flush with ascending scores 0 1 2 3 12 |
| Ranking.TestStraightFlushSixHigh | src/tests.py:29-51 | `Hand('6S 2S 3S 4S 5S')` is a straight flush with ascending scores 0 1 2 3 4 |
| Ranking.TestFourAces | src/tests.py:29-51 | `Hand('AS AC AD AH 5S')` is a four of a kind with ascending scores 3 12 12 12 12 |
| Ranking.TestAcesFullOfFives | src/tests.py:29-51 | `Hand('AS AC AD 5H 5S')` is a full house with ascending scores 3 3 12 12 12 |
| Ranking.TestFlushAceHigh | src/tests.py:29-51 | `Hand('AS 2S 3S 4S 6S')` is a flush with ascending scores 0 1 2 4 12 |
| Ranking.TestStraightWheel | src/tests.py:29-51 | `Hand('AH 2S 3S 4S 5S')` is a straight with ascending scores 0 1 2 3 12 |
| Ranking.TestStraightSixHigh | src/tests.py:29-51 | `Hand('6S 2D 3S 4S 5S')` is a straight with ascending scores 0 1 2 3 4 |
| Ranking.TestThreeAces | src/tests.py:29-51 | `Hand('AS AC AD 4H 5S')` is a three of a kind with ascending scores 2 3 12 12 12 |
| Ranking.TestAcesAndFours | src/tests.py:29-51 | `Hand('AS AC 4D 4H 5S')` is a two pair with ascending scores 2 2 3 12 12 |
| Ranking.TestPairOfFours | src/tests.py:29-51 | `Hand('AS 2C 4D 4H 5S')` is a pair with ascending scores 0 2 2 3 12 |
| Ranking.TestAceHigh | src/tests.py:29-51 | `Hand('AS 2C 4D 7H 5S')` is a high card with ascending scores 0 2 3 5 12 |
| Ranking.TestNineHigh | src/tests.py:29-51 | `Hand('9S 2C 4D 7H 5S')` is a high card with ascending scores 0 2 3 5 7 |
| Ranking.TestAceKingA | src/tests.py:13-18 | `Hand('AS 2D 4C 7H KS')` is a high card with ascending scores 0 2 5 11 12 |
| Ranking.TestAceKingB | src/tests.py:14 | `Hand('AC 2C 4D 7S KH')` is a high card with ascending scores 0 2 5 11 12 |
| Ranking.TestQueenTen | src/tests.py:19 | `Hand('QS 3D 5C 8H 10S')` is a high card with ascending scores 1 3 6 8 10 |
| Ranking.TestKingNine | src/tests.py:23 | `Hand('2H 3D 4S 9C KD')` is a high card with ascending scores 0 1 2 7 11 |
| Ranking.TestKingEight | src/tests.py:24 | `Hand('2H 3D 6S 8C KD')` is a high card with ascending scores 0 1 4 6 11 |
| Ranking.TestScriptKeys | src/tests.py:13-67 | the keys of the hands of the test script compare as the script asserts |
| Ranking.TestAceKingTies | src/tests.py:13-16 | `Hand('AS 2D 4C 7H KS') == Hand('AC 2C 4D 7S KH')`, both ways |
| Ranking.TestQueenTenBelowAceKing | src/tests.py:18-21 | the queen-high hand is below the ace-high hand and not above it |
| Ranking.TestKingEightBelowKingNine | src/tests.py:23-26 | the hands tie on king, and 9 beats 8 at the next position, so the 8 hand is below |
| Ranking.TestScriptComparisons | src/tests.py:13-26 | the three comparisons of the test script |
| Ranking.TestStraightFlushWheelBelowRoyalFlushHand | src/tests.py:53-67 | `Hand('AS 2S 3S 4S 5S') < Hand('AS 10S JS QS KS')` |
| Ranking.TestStraightFlushSixHighBelowStraightFlushWheel | src/tests.py:53-67 | `Hand('6S 2S 3S 4S 5S') < Hand('AS 2S 3S 4S 5S')` |
| Ranking.TestFourAcesBelowStraightFlushSixHigh | src/tests.py:53-67 | `Hand('AS AC AD AH 5S') < Hand('6S 2S 3S 4S 5S')` |
| Ranking.TestAcesFullOfFivesBelowFourAces | src/tests.py:53-67 | `Hand('AS AC AD 5H 5S') < Hand('AS AC AD AH 5S')` |
| Ranking.TestFlushAceHighBelowAcesFullOfFives | src/tests.py:53-67 | `Hand('AS 2S 3S 4S 6S') < Hand('AS AC AD 5H 5S')` |
| Ranking.TestStraightWheelBelowFlushAceHigh | src/tests.py:53-67 | `Hand('AH 2S 3S 4S 5S') < Hand('AS 2S 3S 4S 6S')` |
| Ranking.TestStraightSixHighBelowStraightWheel | src/tests.py:53-67 | `Hand('6S 2D 3S 4S 5S') < Hand('AH 2S 3S 4S 5S')` |
| Ranking.TestThreeAcesBelowStraightSixHigh | src/tests.py:53-67 | `Hand('AS AC AD 4H 5S') < Hand('6S 2D 3S 4S 5S')` |
| Ranking.TestAcesAndFoursBelowThreeAces | src/tests.py:53-67 | `Hand('AS AC 4D 4H 5S') < Hand('AS AC AD 4H 5S')` |
| Ranking.TestPairOfFoursBelowAcesAndFours | src/tests.py:53-67 | `Hand('AS 2C 4D 4H 5S') < Hand('AS AC 4D 4H 5S')` |
| Ranking.TestAceHighBelowPairOfFours | src/tests.py:53-67 | `Hand('AS 2C 4D 7H 5S') < Hand('AS 2C 4D 4H 5S')` |
| Ranking.TestNineHighBelowAceHigh | src/tests.py:53-67 | `Hand('9S 2C 4D 7H 5S') < Hand('AS 2C 4D 7H 5S')` |
| Ranking.TestScriptChain | src/tests.py:53-67 | the whole chain of the test script, each hand below the one before it, with the ace-low straights above the six-high ones |
| Decks.FullFacesOnce | src/poker.py:169-172 | `product(values, suits)` holds every rank-suit pair exactly once, 52 in all |
| Decks.FullFaces | src/poker.py:169-172 | the faces of `product(Card.values, Card.suits)`, in that order: 52 of them; Decks.FullFacesOnce proves each rank-suit pair occurs once |
| Decks.MakeCards | src/poker.py:169-172 | one new card object per face of the full deck, in `product` order, no object twice |
| Decks.Deck.constructor | src/poker.py:168-174 | a new deck is a shuffle of 52 fresh cards, one per face, with an empty discard pile and nothing dealt |
| Decks.Deck.Contains | src/poker.py:190-192 | membership by object identity |
| Decks.Deck.Draw | src/poker.py:194-198 | pops the top (last) card, or raises on an empty pile and changes nothing; the partition is kept and the card counts as dealt |
| Decks.Deck.Deal | src/poker.py:200-203 | raises without drawing when fewer than `n` cards are left; otherwise the top `n` cards, the top first, and they count as dealt |
| Decks.Deck.Discard | src/poker.py:205-207 | raises when this very object is in the draw pile; otherwise appends it; the partition survives exactly when the card was dealt out of this deck |
| Decks.Deck.Reshuffle | src/poker.py:209-212 | the draw pile becomes a permutation of both piles and the discard pile empties; nothing dealt changes |
| Decks.CardsAddUp | src/poker.py:167-212 | draw pile, discard pile and dealt-out cards add up to the 52 cards; this follows from how `Out()` is defined, and the real guarantee is that every deck operation and the exchange keep `Valid()` |
| Decks.ContainsIsIdentity | src/poker.py:190-192 | another object in the deck never has the face of a card already in it, so identity and face agree inside one deck |
| Decks.TakeOut | src/poker.py:194-203 | cards taken off the top of the pile move to the dealt-out set and the partition is kept |
| Decks.DealtOut | src/poker.py:200-203 | the dealt cards, in reversed order, are exactly the ones added to the dealt-out set |
| Decks.PutBack | src/poker.py:205-207 | discarding keeps the partition exactly when the card was dealt out, and takes it out of the dealt-out set |
| Hands.WordLength | src/poker.py:78 | a word of `str.split()` is a non-empty run of non-whitespace ended by whitespace or the end |
| Hands.Split | src/poker.py:78 | `str.split()` yields only non-empty words without whitespace |
| Hands.SplitWord | src/poker.py:78 | a single word without whitespace splits into itself |
| Hands.SplitWordThen | src/poker.py:78 | a word followed by a space splits off as the first word, and the rest splits on its own |
| Hands.SplitJoin | src/poker.py:78 | splitting words joined by single spaces gives back the words |
| Hands.SplitSkipsSpace | src/poker.py:78 | leading whitespace does not change the split |
| Hands.CardsOf | src/poker.py:80-81 | keeps given cards, parses specs into fresh cards, and raises `ValueError` exactly when some spec is invalid |
| Hands.FirstMatch | src/poker.py:161 | `list.remove` takes the first matching card, and none matches when it raises |
| Hands.Steps | src/poker.py:158-164 | the loop of `Hand.exchange` on the three piles: remove, discard and draw per named card, stopping at the first exception with the state it leaves; Hands.StepConserves, Hands.ExchangeConserves and Hands.StepsShape state what it keeps |
| Hands.StepsShape | src/poker.py:158-164 | however the exchange ends, the draw pile loses only cards off its top, and the discard pile gains a prefix of the named cards in order |
| Hands.SwapShape | src/poker.py:160-163 | one step followed by a run of that shape is a run of that shape |
| Hands.Hand.constructor | src/poker.py:84 | the cards sorted by rank: five, ascending, the same cards |
| Hands.Hand.FromCards | src/poker.py:74-84 | succeeds exactly when every spec parses and there are five cards; a bad spec raises before a bad length; the hand is the sorted cards, and a card parsed from a spec is a fresh object |
| Hands.Hand.FromString | src/poker.py:77-84 | the hand of the whitespace-separated words: five valid specs succeed, otherwise the matching `ValueError`; every card is a fresh object |
| Hands.Hand.FromDeck | src/poker.py:75-84 | the top five cards of the deck, sorted; fewer than five raises and changes nothing; the dealt cards leave the deck |
| Hands.Hand.Contains | src/poker.py:104-106 | membership by object identity |
| Hands.Hand.Classification | src/poker.py:124-152 | the category the ranks and suits of the five cards call for (the reference classification) |
| Hands.Hand.Score | src/poker.py:154-156 | the ordinal of the category, below 10, or the `KeyError` exactly when the category is missing |
| Hands.Hand.Equal | src/poker.py:108-111 | equality of the two hands' keys, or the `KeyError` when either hand has no category |
| Hands.Hand.RanksLess | src/poker.py:117-122 | the reversed scan of the rank pairs answers the reverse-lexicographic order on the rank sequences |
| Hands.Hand.Less | src/poker.py:113-122 | the order on the two hands' keys, or the `KeyError` when either hand has no category |
| Hands.Hand.RunSteps | src/poker.py:160-163 | the loop of `Hand.exchange`: the hand and both piles end as the step model says, and a completed loop keeps the hand size |
| Hands.Hand.ExchangeWith | src/poker.py:158-164 | the hand and deck end as the step model says, sorted only when every named card was exchanged; the draw pile loses cards off its top, the discard pile gains the named cards in order, and a deck whose named cards were distinct and dealt out of it stays valid, with the drawn cards dealt out and the discarded ones back in it |
| Hands.Hand.ExchangeAsWritten | src/poker.py:158-164 | `Hand.exchange` as written: removal by rank equality; a completed exchange leaves a valid hand, with the same guarantees on the deck as Hands.Hand.ExchangeWith |
| Hands.Hand.Exchange | src/poker.py:158-164 | the corrected exchange: removal of the named card object itself; a completed exchange leaves a valid hand, and the deck keeps its partition as in Hands.Hand.ExchangeWith |
| Hands.TestScriptDeal | src/tests.py:69-78 | a new deck holds 52 cards and the two hands dealt from it hold five each |
| Hands.RoyalFlushText | src/tests.py:29 | the words of the royal flush, joined by spaces, are the string the test script passes to `Hand` |
| Hands.RoyalFlushSplit | src/tests.py:29 | `str.split()` of that string gives back its five words |
| Hands.RoyalFlushCards | src/tests.py:29 | each of the five words parses to the face the royal-flush spec lists for it |
| Hands.RoyalFlushWords | src/tests.py:29 | the string's words parse, one by one, to the faces of the royal-flush spec |
| Hands.KeyOfMadeHand | src/poker.py:80-84 | a hand built from cards with given faces has the key of those faces once sorted |
| Hands.ClassifyScriptRoyalFlush | src/tests.py:29 | the hand built from `'AS 10S JS QS KS'`, through splitting, parsing and sorting, is classified a royal flush |
| Hands.TestScriptRoyalFlush | src/tests.py:42 | `royal_flush.hand == 'royal flush'` |
| Hands.HandKey | src/poker.py:154-156 | a hand's score exists exactly when its key does, and the key holds the category ordinal and the ascending ranks |
| Hands.RanksAgree | src/poker.py:109-110 | comparing ranks position by position is comparing the rank sequences |
| Hands.StepConserves | src/poker.py:160-163 | one exchange step moves cards between hand, draw pile and discard pile without making or losing any |
| Hands.StepsKeepHandSize | src/poker.py:158-164 | a completed exchange keeps the hand size; one stopped after the removal leaves the hand a card short |
| Hands.ExchangeConserves | src/poker.py:158-164 | the corrected exchange never creates, loses or duplicates a card however it ends, and never raises for a card still in the deck |
| Hands.ExchangeSucceeds | src/poker.py:158-164 | exchanging distinct held cards with enough cards in the deck succeeds: the named cards are discarded in order and the top cards of the deck replace them |
| Hands.ExchangeRunsOut | src/poker.py:158-164 | with fewer cards in the deck than named, the exchange raises on the empty deck and leaves the hand a card short |
| Hands.AsWrittenLosesACard | src/poker.py:161 | as written, naming `AD` when `AS` comes first removes `AS`: it leaves the game, while `AD` is both held and discarded |
| Hands.SwapCounts | src/poker.py:161-163 | one step changes the cards of the game by exactly the removed card out and the named card in |
| Hands.ExchangeKeepsPartition | src/poker.py:158-164 | after an exchange of distinct dealt-out cards the deck still splits its 52 cards into draw pile, discard pile and dealt-out cards, and the dealt-out set gains the drawn cards and loses the discarded ones |
| Hands.DeckAfterExchange | src/poker.py:158-164 | the same partition on values: popping cards off the top and appending distinct dealt-out cards to the discard pile keeps the piles distinct and inside the deck |
| Seqs.SortByCorrect | src/poker.py:84 | `sorted` by a key: ascending, a permutation, the same length |
| Seqs.SortByIsStable | src/poker.py:84 | `sorted` keeps the relative order of cards of equal rank |
| Seqs.SortedUnique | src/poker.py:141 | two ascending permutations of each other are equal, so the sorted group lengths depend only on the multiset of lengths |
| Seqs.SortBy | src/poker.py:84 | `sorted` by a key, as a stable insertion sort; Seqs.SortByCorrect and Seqs.SortByIsStable state what it gives |
| Seqs.Reverse | src/poker.py:117 | `reversed`, also the order in which `deal` returns the popped cards: the same length; Seqs.ReverseAt and Seqs.ReverseElems give its elements |
| Seqs.ReverseElems | src/poker.py:200-203 | reversing keeps the set of elements, so the dealt cards are exactly the ones taken off the top |
| Seqs.ReverseAt | src/poker.py:117 | `reversed` puts the last element first |
| Seqs.Shuffle | src/poker.py:174 | `random.shuffle` leaves some permutation of its list |

## Left out

- `Card.__hash__`, `__repr__`, `__str__` and `Hand.__repr__`, `__str__`, and `Deck.__repr__`: display only; the Unicode playing-card glyphs are not modelled.
- `Hand.__iter__`, `__getitem__` and `Deck.__iter__`, `__getitem__`, `__len__`: plain access to the `cards` field; `Hand.__len__` always returns 5, which `Hand.Valid` states.
- `random.shuffle` in `Deck.__init__` and `Deck.reshuffle`: randomness; Seqs.Shuffle picks some permutation, so the model proves only what holds for every order.
- Decks.Deck.constructor: the order of the new deck is left open, like `random.shuffle`; only its contents are stated.
- A `TypeError` from passing something other than a string, card or deck to `Card` or `Hand`: inputs are typed in the model.
- The `$` of the card regex also matches before one trailing newline (`'AS\n'` is accepted by `re.match`): Cards.ParseCard rejects that input.
- Whitespace: Cards.IsSpace is the set of characters `str.isspace` accepts; the Unicode database of the Python version is not modelled further.
- Running Python with `-O` removes the `assert` of `Deck.discard`: the model keeps the check (CardInDeck).
- Seqs.SortBy is an insertion sort rather than Python's Timsort. Seqs.SortByCorrect and Seqs.SortByIsStable prove its result ascending, a permutation of the input and stable, which determines the result of any stable sort; that uniqueness for key sorts is not itself proved here (Seqs.SortedUnique proves it for integer sequences).
- Hands.Hand.RanksLess: requires two hands of the same length; `zip` would truncate, but a valid hand always has five cards.
- The test-script lemmas in Ranking work on the faces each spec parses to, in written order, rather than on parsed card objects; Cards.ParseCardComplete links specs and faces.
- `Hand.__eq__` with a non-hand operand, and the mixed comparisons `total_ordering` derives for hands: not modelled beyond `==` and `<`.
- Integers are unbounded; all values in this code are small (scores below 13, at most 52 cards), so no width is modelled.
- Decks.Deck.Deal: the default `n=5` of `deal` is not modelled; callers pass the count, and Hands.Hand.FromDeck passes 5.

## Findings

| source | as written | input that shows it | evidently intended | confidence | as-written member | corrected member |
|---|---|---|---|---|---|---|
| src/poker.py:161 | `self._cards.remove(card)` finds the card with `Card.__eq__`, which compares ranks only, so it removes the first held card of that rank | a hand of `AS AD 2C 3C 4C` exchanging the `AD` object: `AS` is removed, `AD` is discarded and also stays in the hand, and `AS` leaves the game | remove the named card object, as `Deck.discard` and `Hand.__contains__` (which check identity) assume | not executed | Hands.AsWrittenLosesACard | Hands.ExchangeConserves |
