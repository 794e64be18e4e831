# Cards, four-player whist and higher-or-lower, in Dafny

This project models the core of a small Rust card-game library:

- **Cards** (`card.dfy`, module `Cards`; source `src/card.rs`). It covers the four suits and thirteen ranks and the generic
  (suit, rank) card with its constructor. It also covers card equality, the numeric code
  `suit * 13 + rank` of a card, and the canonical 52-card deck. The deck is laid out suit by suit,
  Hearts, Clubs, Diamonds, Spades, with each suit running Ace, Two, …, King. Proved:
  - the code is a bijection between the 52 cards and `0..51`, with `Decode` as its inverse;
  - the deck is the flat map of one run per suit, and holds every card exactly once;
  - a card's code equals its deck position exactly for the Aces, because the code counts ranks
    from Ace down to Two while the deck lays them out from Ace up to King.
- **Whist** (`whist.dfy`, module `Whist`; source `src/game/whist.rs`). The module is commented out of the
  crate (`src/game.rs:2`); it is modelled as written, including the way it picks a trick's winner
  (see Findings).
  - **Comparison in a trick.** Cards are compared in the context of a trick, given the leading suit
    and the optional trumps.
  - **The engine** is a class over an array of four players. `players[0]` is the player to act.
    The engine deals the shuffled deck round-robin into the 13 hand slots. It lists the legal slots:
    every filled slot, restricted to the suit led when the player holds it.
  - **Playing a card.** A step plays the chosen card into the trick and the "seen" history.
    After the first three cards of a trick, the seats turn by one. After the fourth, the trick is
    resolved: the seats turn so that the winner is in front, the winner scores one trick, and the
    trick is cleared.
  - **Invariants** that every step keeps:
    - the hands and the seen cards together are exactly the deck;
    - the seats keep their cyclic order, and the player in front is the one who played the winning card;
    - the scores add up to the number of finished tricks, which bounds every score by 13.
- **Higher-or-lower** (`highlow.dfy`, module `HighLow`; source `src/game/highlow.rs`). A one-player game:
  - the player guesses whether the next card from the shuffled deck ranks higher or lower than the
    one showing;
  - a right guess adds one to the score, and any other outcome, including an equal rank, resets it to 0.
  - The model keeps the cards and guesses of the game so far as ghost history. It proves that the
    score is always the length of the current run of right guesses, and so is at most 51.

Randomness is a parameter:
- The whist trumps are passed to the constructor and to `Reset`.
- The shuffled decks are passed to `Deal` and to the higher-or-lower constructor and `Reset`. Each
  must be a permutation of the deck.

## Model

| member | source | states |
|---|---|---|
| Cards.New | src/card.rs:24-26 | the card built has exactly the given suit and rank |
| Cards.SuitOrdinal | src/card.rs:33-38 | a suit's ordinal is its declaration position, below 4 |
| Cards.RankOrdinal | src/card.rs:52-66 | a rank's ordinal is its declaration position (Ace 0 … Two 12), below 13 |
| Cards.DeckRankIndex | src/card.rs:112-126 | the position of each rank within a suit of the deck, Ace first and then Two up to King |
| Cards.Equals | src/card.rs:96-100 | two cards are equal exactly when both suit and rank agree |
| Cards.Encode | src/card.rs:90-94 | a card's code is below 52, its quotient by 13 is the suit ordinal and its remainder the rank ordinal |
| Cards.Decode | src/card.rs:90-94 | every code below 52 is the code of the card Decode returns |
| Cards.DecodeEncode | src/card.rs:90-94 | decoding a card's code gives the card back |
| Cards.EncodeInjective | src/card.rs:90-94 | two cards have the same code exactly when they are the same card |
| Cards.Deck | src/card.rs:108-133 | the canonical deck has 52 cards (its layout is stated by Cards.DeckIsRuns and Cards.DeckHasEachCardOnce) |
| Cards.SuitRun | src/card.rs:112-128 | one suit's run: thirteen cards of that suit, the k-th with the k-th rank of the deck order Ace, Two, …, King |
| Cards.Runs | src/card.rs:109-130 | flat-mapping the runs over a list of suits gives thirteen cards per suit |
| Cards.DeckIsRuns | src/card.rs:108-133 | the deck is the flat map, over the four suits in order, of that suit's thirteen cards in deck rank order |
| Cards.DeckIndex | src/card.rs:108-133 | every card occurs in the deck, at position 13 × suit ordinal + deck rank position |
| Cards.DeckIndexOfDeck | src/card.rs:108-133 | the deck position of the card at position j is j |
| Cards.DeckDistinct | src/card.rs:108-133 | no two positions of the deck hold the same card |
| Cards.DeckHasEachCardOnce | src/card.rs:108-133 | every card occurs in the deck exactly once |
| Cards.DeckCodes | src/card.rs:90-94 | each code 0..51 is the code of exactly one deck position |
| Cards.EncodeVersusDeckIndex | src/card.rs:90-133 | a deck card's code equals its deck position exactly when it is an Ace |
| Whist.Effective | src/game/whist.rs:14-15 | the effective trump is the declared trumps, or the suit led when none are declared |
| Whist.SuitCompare | src/game/whist.rs:13-26 | equal suits compare Equal; another suit compares Less exactly against the effective trump (the trumps, or else the suit led), and Greater against every other suit |
| Whist.TrumpSuitWins | src/game/whist.rs:13-26 | the effective trump beats every other suit, in both argument orders |
| Whist.OffSuitsBothGreater | src/game/whist.rs:13-26 | two different suits that are not the effective trump each compare Greater than the other: the relation is not an order |
| Whist.RankValue | src/game/whist.rs:29-47 | rank values run 2 to 14, and a rank's value is 14 minus its ordinal (Ace high) |
| Whist.RankCompare | src/game/whist.rs:49-56 | ranks compare by value: Less, Equal or Greater exactly as their values do |
| Whist.RankOrderTotal | src/game/whist.rs:49-56 | rank comparison is antisymmetric and transitive, for both the strict and the non-strict order |
| Whist.CardCompare | src/game/whist.rs:58-68 | cards are Equal only when identical; the same suit compares by rank; different suits compare by suit, so an effective-trump card beats any card of another suit |
| Whist.HighestOfSuit | src/game/whist.rs:208-216 | the position of a card of the given suit whose rank no other card of that suit in the trick exceeds |
| Whist.EffectiveSuitLedWithoutTrumps | src/game/whist.rs:15 | with no trumps, the effective trump is the suit led, which the trick always holds |
| Whist.HighestTrumpIsUniqueWinner | src/game/whist.rs:208-216 | when the trick holds the effective trump, its highest card beats every other card, and it is the only card that does |
| Whist.InsertTail | src/game/whist.rs:210 | one insertion step of the standard library's stable insertion sort: a permutation of the input plus the new card, ending with the card that sorts last |
| Whist.InsertionSort | src/game/whist.rs:210 | sorting a trick gives a permutation of it |
| Whist.PositionOf | src/game/whist.rs:212-216 | the first position of the trick holding the given card |
| Whist.SortedWinner | src/game/whist.rs:208-216 | the winner as written: the first position of the trick holding the last card of the sorted trick |
| Whist.SortEndsWithTopTrump | src/game/whist.rs:208-210 | when the effective trump was played, the sorted trick ends with the highest card of that suit |
| Whist.SortedWinnerFollowsTrumps | src/game/whist.rs:208-216 | when the effective trump was played, the sort-based winner is the position of the highest card of that suit |
| Whist.LastOffSuitWins | src/game/whist.rs:208-216 | with trumps declared but none played, a fourth card of a suit not played before wins the sort-based rule, whatever its rank |
| Whist.SortedWinnerIgnoresSuitLed | src/game/whist.rs:208-216 | concrete trick 5♥, 9♣, 10♥, 2♦ with trumps Spades: the sort-based winner is position 3, the corrected winner is position 2 |
| Whist.TakingSuit | src/game/whist.rs:208-216 | the suit that takes the trick is the trumps when a trump was played and the suit led otherwise, and it occurs in the trick |
| Whist.IntendedCompare | src/game/whist.rs:58-68 | the corrected comparison agrees with rank comparison within a suit; it gives Equal only for identical cards or two cards that can never win |
| Whist.IntendedCompareFlips | src/game/whist.rs:58-68 | the corrected comparison is antisymmetric: swapping its arguments flips the result |
| Whist.IntendedWinner | src/game/whist.rs:208-216 | the corrected winner is a position in the trick holding the highest card of the taking suit, and so the highest card of the effective trump whenever one was played |
| Whist.IntendedWinnerBeatsAll | src/game/whist.rs:208-216 | the corrected winner compares Greater than every other card of the trick |
| Whist.HigherOfSuitLedWins | src/game/whist.rs:208-216 | with trumps declared but none played, when the second and fourth cards are off the suit led and the third is a higher card of it, the corrected winner is the third card |
| Whist.WinnersAgreeWithTrumpPlayed | src/game/whist.rs:208-216 | whenever the effective trump was played, the sort-based and the corrected winner coincide |
| Whist.NewPlayer | src/game/whist.rs:77-85 | a new player has the given id, thirteen empty slots and score 0 |
| Whist.NewPlayers | src/game/whist.rs:106-111 | the initial seats hold players 0 to 3 in order |
| Whist.NewPlayersSeated | src/game/whist.rs:102-130 | the initial table meets the engine invariant: seats in cyclic order, no cards, no tricks |
| Whist.Whist.constructor | src/game/whist.rs:102-130 | a new engine: players 0 to 3, empty hands, empty trick and history, the canonical deck, the given trumps |
| Whist.Whist.Reset | src/game/whist.rs:226-228 | reset replaces the engine with a new one |
| Whist.Whist.Deal | src/game/whist.rs:132-138 | after a deal the deck is the shuffled order, card i sits in slot i / 4 of player i % 4, ids and scores are unchanged, the hands hold exactly the deck, and the engine invariant holds |
| Whist.Whist.DealHands | src/game/whist.rs:135-137 | the dealing loop puts card i into slot i / 4 of player i % 4 |
| Whist.DealtHandsHoldDeck | src/game/whist.rs:135-137 | after dealing n rounds, the first n slots of the four hands hold exactly the first 4n cards of the deck |
| Whist.FullDealHoldsDeck | src/game/whist.rs:132-138 | a full deal puts every card of the deck into exactly one hand slot |
| Whist.NoCardTwice | src/game/whist.rs:193-223 | while the hands and the seen cards make up the deck, each card is in exactly one of them, and no card is seen twice |
| Whist.ScoresFitInByte | src/game/whist.rs:219 | while the scores count finished tricks, no score exceeds 13, so the byte-sized score never overflows |
| Whist.Whist.CurrentPlayer | src/game/whist.rs:147-149 | the current player is the one in the front seat, with an id below 4 and thirteen slots |
| Whist.Whist.Observation | src/game/whist.rs:151-160 | the observation is the front hand, the seen cards, the trumps and the trick, and the trick is the tail of the seen cards |
| Whist.FittingSlotsSpec | src/game/whist.rs:165-171 | the filtered slots are increasing, and a slot is listed exactly when it is filled (and of the suit, when one is required) |
| Whist.LegalSlotsSpec | src/game/whist.rs:162-191 | legal slots are increasing; a slot is legal exactly when it is filled and, if a trick is under way and the player holds its suit led, holds that suit |
| Whist.LegalSlotsNonEmpty | src/game/whist.rs:162-191 | a player with any card has a legal action |
| Whist.FullHandAllLegal | src/game/whist.rs:162-175 | with a full hand and an empty trick, all thirteen slots 0..12 are legal |
| Whist.RetainFilled | src/game/whist.rs:188 | retaining the slots of the suit led among the filled slots gives exactly the filled slots of that suit |
| Whist.FilledSlots | src/game/whist.rs:165-171 | the loop over the hand collects the filled slots in order |
| Whist.RetainSuit | src/game/whist.rs:188 | the loop keeps, in order, the listed slots whose card has the given suit |
| Whist.HeldSuitFits | src/game/whist.rs:177-186 | a hand holds the suit led exactly when filtering its slots by that suit leaves some slot |
| Whist.HoldsSuit | src/game/whist.rs:179-182 | the hand holds the suit exactly when some slot fits that suit |
| Whist.MustFollow | src/game/whist.rs:173-186 | the player must follow exactly when a trick is under way and they hold its suit led, and then must follow that suit |
| Whist.LegalSlots | src/game/whist.rs:162-191 | every legal slot is filled; with an empty trick they are all the filled slots; when the player holds the suit led, every legal slot holds it |
| Whist.Retain | src/game/whist.rs:188 | the retained slots are among the given ones, no more of them, and each holds a card of the suit |
| Whist.RetainKeepsExactly | src/game/whist.rs:188 | a slot is retained exactly when it is among the given ones and holds a card of the suit |
| Whist.Whist.LegalActions | src/game/whist.rs:162-191 | the legal actions are exactly the legal slots of the front hand for the trick in progress |
| Whist.WithoutCard | src/game/whist.rs:201 | playing a slot empties it in the front player's hand and changes nothing else |
| Whist.Credit | src/game/whist.rs:219 | crediting a trick adds one to the front player's score and changes nothing else |
| Whist.RotateLeft | src/game/whist.rs:204 | after turning the seats by k, seat j holds the player from seat (j + k) mod the number of seats |
| Whist.RotateKeepsCardsAndScores | src/game/whist.rs:204 | turning the seats keeps the cards in the hands and the total score |
| Whist.ClearMovesOneCard | src/game/whist.rs:196-201 | playing a slot removes exactly that card from the hands |
| Whist.PlayMovesOneCard | src/game/whist.rs:196-218 | playing then turning removes exactly the played card from the hands, and crediting the trick moves no card |
| Whist.PlayKeepsCards | src/game/whist.rs:196-219 | a card moved from a hand to the seen cards keeps hands plus seen equal to the deck |
| Whist.PlayKeepsScores | src/game/whist.rs:201-219 | playing and turning leaves the total score unchanged; crediting the trick raises it by exactly one |
| Whist.ScoresCountTricks | src/game/whist.rs:198-221 | at every reachable table the total score is the number of finished tricks, and the trick holds the seen cards past the last multiple of four |
| Whist.PassKeepsTable | src/game/whist.rs:193-206 | playing one of the first three cards of a trick and turning by one keeps the engine invariant |
| Whist.CloseKeepsTable | src/game/whist.rs:208-221 | resolving a trick keeps the engine invariant, and the front player afterwards is the one who played the winning card |
| Whist.CloseKeepsRecord | src/game/whist.rs:218-221 | after the fourth card, the seat that played the winning position is the one turned to the front |
| Whist.Whist.PlayCard | src/game/whist.rs:195-201 | the chosen card is appended to the trick and to the seen cards, and its slot is emptied |
| Whist.Whist.RotatePlayers | src/game/whist.rs:204 | the seats turn left by k |
| Whist.Whist.PassTurn | src/game/whist.rs:195-206 | on the first three cards of a trick: card played, seats turned by one, invariant kept |
| Whist.Whist.ResolveTrick | src/game/whist.rs:208-221 | on the fourth card: the winner is the position of the last card of the sorted trick, the seats turn by winner + 1, the front player is credited, the trick is cleared |
| Whist.Whist.TakeTrick | src/game/whist.rs:195-223 | on the fourth card: the winner is the sort-based winner, the invariant is kept, and the front player afterwards played the winning card |
| Whist.ClosedTrickAgrees | src/game/whist.rs:208-216 | a trick closed while hands plus seen cards make up the deck has no repeated card, so when it holds the effective trump the sort-based winner is the winner by the rules of whist |
| Whist.Whist.Step | src/game/whist.rs:193-224 | one move: the card goes to the seen cards and to the trick (or closes it), the seats turn as above, reward 0, never done, and hands plus seen stay equal to the deck; the fourth card's winner is the sort-based winner, and it is the winner by the rules of whist whenever the trick holds the effective trump |
| HighLow.SuitCompare | src/game/highlow.rs:12-19 | in this game suits always compare Equal |
| HighLow.RankValue | src/game/highlow.rs:21-39 | rank values run 2 to 14 |
| HighLow.RankValueOrdinal | src/game/highlow.rs:21-39 | a rank's value is 14 minus its ordinal, and the value determines the rank |
| HighLow.RankCompare | src/game/highlow.rs:41-48 | ranks compare Less, Equal or Greater exactly as their values do |
| HighLow.CardCompare | src/game/highlow.rs:50-57 | cards compare by rank value alone |
| HighLow.CardOrderIgnoresSuit | src/game/highlow.rs:50-57 | changing suits never changes a comparison, and comparison is antisymmetric |
| HighLow.CardOrderTransitive | src/game/highlow.rs:50-57 | Greater is transitive |
| HighLow.ActionFromU32 | src/game/highlow.rs:93-101 | 0 and 1 convert to an action that converts back to the same number; every other number is rejected |
| HighLow.ActionToU32 | src/game/highlow.rs:103-110 | Higher converts to 0 and Lower to 1 |
| HighLow.ActionRoundTrip | src/game/highlow.rs:93-110 | converting an action to a number and back gives the action |
| HighLow.Right | src/game/highlow.rs:138-143 | a guess is right exactly when it is Higher and the drawn rank is higher, or Lower and the drawn rank is lower; an equal rank is never right |
| HighLow.NextScore | src/game/highlow.rs:138-146 | the score goes up by one exactly when the guess is right (Higher and a higher rank drawn, or Lower and a lower one), and otherwise drops to 0 |
| HighLow.SameRankResets | src/game/highlow.rs:138-146 | drawing the same rank resets the score whatever the guess |
| HighLow.OutcomesExtend | src/game/highlow.rs:130-150 | one more draw and guess adds exactly one outcome, judged against the previous card |
| HighLow.TrailingRunIsStreak | src/game/highlow.rs:138-146 | the trailing run is a streak: its last outcomes are right, and the one before it, if any, is wrong |
| HighLow.StreakIsTrailingRun | src/game/highlow.rs:138-146 | any streak length is the trailing run, so the streak is unique |
| HighLow.RunExtends | src/game/highlow.rs:138-146 | the score update applied to the trailing run of outcomes gives the trailing run after the new outcome |
| HighLow.DrawnCardsLeftDeck | src/game/highlow.rs:130-150 | while deck and drawn cards make up the canonical deck, no card is both drawn and still in the deck |
| HighLow.ScoreBound | src/game/highlow.rs:138-146 | the score plus the cards left in the deck never exceeds 51 |
| HighLow.DrawKeepsPlaying | src/game/highlow.rs:130-150 | a draw moves the top card from the deck to the history and keeps the game invariant |
| HighLow.HighLow.constructor | src/game/highlow.rs:67-80 | a new game: the top card of the shuffled deck turned up, 51 left, score 0 |
| HighLow.HighLow.Reset | src/game/highlow.rs:153-158 | a reset starts a new game from a reshuffled full deck |
| HighLow.HighLow.Pop | src/game/highlow.rs:131 | popping gives the last card of the deck and removes it, or nothing from an empty deck |
| HighLow.HighLow.Score | src/game/highlow.rs:82-84 | the score is the length of the current streak of right guesses, at most 51 |
| HighLow.HighLow.CurrentPlayer | src/game/highlow.rs:118-120 | the only player is player 1 |
| HighLow.HighLow.LegalActions | src/game/highlow.rs:122-124 | both guesses are always legal, Higher then Lower |
| HighLow.HighLow.Observation | src/game/highlow.rs:126-128 | the observation is the current card, which has been drawn and is no longer in the deck |
| HighLow.HighLow.Step | src/game/highlow.rs:130-151 | on an empty deck nothing changes and the game is done; otherwise the top card is turned up, the score updated by the guess, and the game is done exactly when the deck runs out; the reward is the score |

## Findings

| source | as written | input that shows it | evidently intended | confidence | as-written member | corrected member |
|---|---|---|---|---|---|---|
| src/game/whist.rs:208-216 | The suit comparison (lines 13-26) uses the trumps when declared and ignores the suit led. With trumps declared but none played, two cards of different suits that are not trumps each compare Greater than the other, so the stable sort of the trick never swaps two cards of different suits (cards of one suit are still ordered by rank). A card whose suit was not played before therefore stays last when played last, and wins whatever its rank. | trick 5♥, 9♣, 10♥, 2♦ with trumps Spades: the winner is position 3 (2♦) | the highest card of the suit led wins: 10♥, position 2 | medium; not executed; relies on the standard library sorting slices of four elements by stable insertion sort | Whist.SortedWinnerIgnoresSuitLed (over Whist.SortedWinner) | Whist.IntendedWinner, with Whist.IntendedWinnerBeatsAll and Whist.WinnersAgreeWithTrumpPlayed |

The engine's `ResolveTrick` follows the code and uses the sort-based winner. `Whist.WinnersAgreeWithTrumpPlayed` and `Whist.ClosedTrickAgrees` show that the two rules differ only on tricks with trumps declared and no trump played; `Whist.Whist.Step` states the agreement for every trick it closes that holds the effective trump.

## Left out

- Randomness. The shuffles and the random choice of trumps are parameters (`Whist.Whist.constructor`, `Whist.Whist.Reset`, `Whist.Whist.Deal`, `HighLow.HighLow.constructor`, `HighLow.HighLow.Reset`). A shuffled deck must be a permutation of the deck, and the random-number generators are not modelled.
- `render` and the `Display` implementations only write text to the console.
- The `Game` trait (`src/game.rs:4-16`) is not a type here. Its operations are methods of each game class, and the `Into<u32>` and `Into<f32>` bounds on its associated types are not modelled.
- The `ConditionalOrd` trait (`src/card.rs:3-7`) is not a type here. Each game has its own comparison functions.
- `From<Player> for u32` (`src/game/whist.rs:87-91`) only reads the id field.
- The unit tests in `src/game/whist.rs` are not modelled. What they check is stated by `Whist.FullDealHoldsDeck` and `Whist.FullHandAllLegal`.
- Whist.Whist.Step: the source panics when the chosen slot is out of range or empty. The model makes these preconditions rather than an error result.
- Whist.Whist.Step: the `done` flag is always false, as in the code. The game never reports the end of a deal after the thirteenth trick.
- Whist.SortedWinner: models the standard library's sort as the stable insertion sort it uses on short slices. The library's other sorting paths for longer slices never apply to a four-card trick.
- Whist.Retain: is total. The source unwraps the slot, which is always filled there, as `Whist.RetainSuit` requires.
- Integer widths. Scores (`u8`), ids and codes (`u32`) and actions (`u8`) are unbounded naturals. The byte-sized scores are proved never to overflow: `Whist.ScoresFitInByte` bounds whist scores by 13, and `HighLow.ScoreBound` bounds the higher-or-lower score by 51.
- HighLow.ActionFromU32: the panic on numbers other than 0 and 1 is modelled as `None`.
- The ghost history and guesses of `HighLow.HighLow` and the ghost seat and play record of `Whist.Whist` exist only to state the invariants. The source keeps no such fields.
