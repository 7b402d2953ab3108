# Speed card-game engine, modelled in Dafny

This project models the rules engine of a two-player game of Speed
(speedy_poker_server).

**Cards.** A card is the number `(face << 2) | suit`. `createDeck` lists the
4 x 13 cards suit by suit and shuffles them in place with a Durstenfeld
loop. `dealCards` splices cards off the front of a deck.

**Game.** A `Game` holds the two `Player`s, the two face-up center piles,
the two face-down center draw piles, the discarded pile and a count of
joined players. The class keeps the source's shape. Its methods update
fields that have `modifies` clauses, and they are proved against pure
specification functions in `GameRules`:

- The constructor deals from fresh decks until the layout is live. Its
  specification is `FirstLiveDeal`.
- `UseCard` validates a card against the center tops (`ValidateMove`). An
  invalid card costs half a point from a positive score. A valid card replaces it in the hand
  with the head of the draw pile, goes onto a center pile, scores, and is
  followed by the reshuffle.
- `ShuffleUntilNotDead` reveals new center tops while no card in either hand
  can be played. When a center draw pile is empty, it first redistributes
  the center piles. Its specification is `ReshuffleOutcome`.
- `PlayerJoin` seats players, `CheckIsDead` detects a dead layout, and
  `Winner` ranks the players once a hand is empty.

**Modules.**

| module | file | models |
|---|---|---|
| `Wrappers`, `Enums` | `enums.dfy` | `undefined` as `Option`, and the enumerations and constants of `src/types` |
| `Cards` | `cards.dfy` | `src/utils/card.ts` |
| `Players` | `players.dfy` | `src/model/player.ts` |
| `GameRules` | `game_rules.dfy` | the pure rules of `src/model/game.ts` and the value-level meaning of its methods |
| `GameModel` | `game.dfy` | class `Game` of `src/model/game.ts` |

**How the model stands in for the source.**

- Randomness is passed in. Each `Math.random()` value is a `Draw`, a real in
  [0, 1). A shuffle of n cards takes n draws. The index a draw picks is
  `Floor(draw * bound)`, computed over the exact reals.
- The constructor takes one 52-draw sequence per deal it may try.
  `UseCard` and `ShuffleUntilNotDead` take the draws the reshuffle may spend.
- Scores are kept as integer half-points (`halfPoints == 2 * point`). Every
  score change in the source is +1, +5 or -0.5.
- `UseCard` takes any `Player` object, as the source does. It reads the
  hand and draw pile of that object and writes to the seated player with
  the same id. Its contract covers both an argument that is the seated
  object and one that is a separate copy. This matters for the reported
  `newCard`; see `ReportedNewCardCases`.

**Notes on the code as written.**

- src/model/game.ts deals in the constructor. The tests and the socket
  listeners use a newer API instead: they expect an empty table until the
  second player joins (src/model/__test__/game.test.ts:19-29), and they call
  `useCard(card, PlayerId)` (src/listener/game_events/game_update.ts:57-60).
  The model follows src/model/game.ts.
- `useCard` does not check how many players have joined.
- The wrap-around distance `Object.keys(FaceValue).length / 2 - 1` is 12:
  a numeric enum has a key per name and a key per number. So only Ace and
  Two wrap. On real cards this rule equals cyclic adjacency of the 13 ranks
  (`AcceptsIsCyclicAdjacency`).
- Cards are not conserved through a reshuffle. A redistribution overwrites
  both center draw piles with the center-pile cards only, so cards left in
  the other center draw pile are lost (`RedistributingRoundCards`).
  `discardedPile` holds a copy of every played card.
- `shuffleUntilNotDead` can loop forever. After a redistribution no card is
  ever added to the board (`ReshuffleRoundCards`). A board whose only card
  is one center top comes back unchanged from every round
  (`SingleCardRoundIsFixed`). So while that card fits neither hand, the loop
  at src/model/game.ts:110-141 never exits; the model stops only when its
  supplied draws run out (`SingleCardReshuffleNeverEnds`).
- `playerJoin` with an empty socket id still counts a player without
  filling the seat.

## Model

| member | source | states |
|---|---|---|
| Enums.Suit.Value | src/types/enums.ts:1-6 | a suit's enum number is below 4 |
| Enums.FaceValue.Value | src/types/enums.ts:8-22 | a face value's enum number is below 13 |
| Enums.Destination.Value | src/types/enums.ts:24-33 | a destination's enum number is below 8 |
| Cards.ShiftLeft | src/utils/card.ts:10 | `x << n` on naturals, multiplication by `2^n`; used by `CreateCard` |
| Cards.ShiftRight | src/utils/card.ts:18 | `x >> n` on naturals, `n` halvings; its meaning on cards is `GetFaceValue`'s contract |
| Cards.BitAnd | src/utils/card.ts:14 | bitwise `&` bit by bit; its meaning under a mask is `MaskKeepsLowBits` |
| Cards.BitOr | src/utils/card.ts:10 | bitwise `or` bit by bit; its meaning on a shifted value is `OrIntoShifted` |
| Cards.Mask | src/utils/card.ts:5-7 | `mask(n) + 1 == 2^n` |
| Cards.MaskKeepsLowBits | src/utils/card.ts:13-15 | `mask(n) & c == c % 2^n` for every non-negative `c` |
| Cards.OrIntoShifted | src/utils/card.ts:9-11 | or-ing a value below `2^n` into `x << n` adds it |
| Cards.CreateCard | src/utils/card.ts:9-11 | the card is `4 * face + suit` and lies below 52 |
| Cards.GetSuit | src/utils/card.ts:13-15 | the decoded suit is `card % 4` |
| Cards.GetFaceValue | src/utils/card.ts:17-19 | the decoded face is `card / 4`, below 13 on a deck card |
| Cards.CodecRoundTrip | src/utils/card.ts:9-19 | decoding a created card gives back its suit and face value |
| Cards.CodecCoversDeck | src/utils/card.ts:9-19 | every number below 52 is the card of the suit and face it decodes to |
| Cards.CreateSuits | src/utils/card.ts:21-23 | four suits, position `i` holding enum number `i` |
| Cards.CreateFaceValues | src/utils/card.ts:25-41 | thirteen face values in enum order, Two first and Ace last |
| Cards.EnumerationsComplete | src/utils/card.ts:21-41 | every suit and every face value is listed |
| Cards.SuitCards | src/utils/card.ts:45 | the inner `flatMap`: one card per face value, for one suit |
| Cards.FlatMapSuits | src/utils/card.ts:44-46 | the outer `flatMap`: the inner lists of the suits, concatenated in order; its meaning is `FlatMapSuitsAt` |
| Cards.OrderedDeck | src/utils/card.ts:44-46 | the deck before the shuffle, 52 cards by position; its link to the `flatMap` is `OrderedDeckIsFlatMap` |
| Cards.FlatMapSuitsLength | src/utils/card.ts:44-46 | the nested `flatMap` lists 13 cards per suit |
| Cards.FlatMapSuitsAt | src/utils/card.ts:44-46 | position `i` of the nested `flatMap` is the card of suit `i / 13` and face `i % 13` |
| Cards.OrderedDeckIsFlatMap | src/utils/card.ts:44-46 | the nested `flatMap` over all suits is the ordered deck |
| Cards.OrderedDeckAt | src/utils/card.ts:44-46 | position `i` of the unshuffled deck holds card `4 * (i % 13) + i / 13` |
| Cards.OrderedDeckInjective | src/utils/card.ts:44-46 | two positions of the unshuffled deck hold different cards |
| Cards.OrderedDeckDistinct | src/utils/card.ts:44-46 | the unshuffled deck has 52 cards and no repeats |
| Cards.OrderedDeckIsFull | src/utils/card.ts:44-46 | the unshuffled deck holds every value 0..51 exactly once |
| Cards.Scale | src/utils/card.ts:61 | `draw * n` lies in [0, n) |
| Cards.ScaleIsProduct | src/utils/card.ts:61 | the repeated sum is the product `draw * n` |
| Cards.RandomIndex | src/utils/card.ts:61 | `Math.floor(Math.random() * currentIndex)` is below `currentIndex` |
| Cards.Swap | src/utils/card.ts:65-68 | the two cells trade values and every other cell is kept |
| Cards.SwapPermutes | src/utils/card.ts:65-68 | a swap keeps the multiset of cards |
| Cards.SwapCells | src/utils/card.ts:65-68 | the destructuring assignment swaps the two array cells |
| Cards.ShuffleSteps | src/utils/card.ts:55-70 | the loop's outcome keeps the deck's length |
| Cards.ShuffleStepsPermutes | src/utils/card.ts:55-70 | the shuffle result is a permutation of its input |
| Cards.ShuffleStepsAdvance | src/utils/card.ts:59-69 | loop-step lemma for `Shuffle`: one unfolding of `ShuffleSteps`, used as the loop's invariant step |
| Cards.Shuffle | src/utils/card.ts:55-70 | the in-place loop leaves the array equal to the specified shuffle of its old contents |
| Cards.ShuffledDeck | src/utils/card.ts:43-49 | a created deck has 52 cards |
| Cards.ShuffledDeckIsFull | src/utils/card.ts:43-49 | whatever the draws, a created deck holds each value 0..51 exactly once and has no repeats |
| Cards.CreateDeck | src/utils/card.ts:43-49 | the returned fresh array is the shuffled ordered deck |
| Cards.DealCards | src/utils/card.ts:51-53 | the dealt cards are the first n cards (all of them when the deck is shorter), and dealt ++ rest == deck |
| Cards.DealFromFreshDeck | src/utils/card.ts:51-53 | dealing `n <= 52` cards from a fresh deck gives `n` distinct cards |
| Players.Player.constructor | src/model/player.ts:12-19 | stores the given hand, draw pile and id, with empty name and socket id and a zero score |
| Players.Player.SetName | src/model/player.ts:21-23 | replaces the name and leaves every other field alone |
| GameRules.TwoAndAceDiff | src/model/game.ts:195 | `Object.keys(FaceValue).length / 2 - 1` is the distance from Two to Ace |
| GameRules.ValidateMove | src/model/game.ts:176-217 | the checks of `validateMove` in source order (no tops, step on pile 1, step on pile 2, Ace/Two on pile 1, on pile 2); its meaning is `ValidateMoveMeaning` |
| GameRules.ValidateMoveMeaning | src/model/game.ts:176-217 | a card is valid iff a pile accepts it (rank step 1, or Ace/Two); a step beats a wrap and pile 1 beats pile 2 |
| GameRules.AcceptsIsCyclicAdjacency | src/model/game.ts:195-214 | on deck cards, acceptance is cyclic adjacency of ranks |
| GameRules.ValidateMoveIgnoresSuit | src/model/game.ts:185-193 | only face values are compared |
| GameRules.NothingValidOnEmptyCenter | src/model/game.ts:181-183 | with no top on either pile every card is invalid |
| GameRules.ValidationTable | src/model/__test__/game.test.ts:288-317 | the test suite's accepted pairs validate against two equal tops |
| GameRules.RejectionTable | src/model/__test__/game.test.ts:257-286 | the test suite's rejected pairs are invalid against two equal tops |
| GameRules.LayoutDead | src/model/game.ts:156-174 | `checkIsDead`: no card of either hand validates against the two center tops; `Game.CheckIsDead` returns it |
| GameRules.Redistribute | src/model/game.ts:116-128 | shuffle center pile 1 then 2, give the first half (rounded up) to center draw pile 1 and the rest to pile 2, empty the center piles; its meaning is `RedistributeFacts` |
| GameRules.Refill | src/model/game.ts:112-129 | the board after the redistribution step of one round: redistributed when a center draw pile is empty, else unchanged |
| GameRules.RevealTops | src/model/game.ts:131-137 | moves the head of each non-empty center draw pile onto its center pile; its meaning is `RevealTopsFacts` |
| GameRules.RedistributeFacts | src/model/game.ts:116-128 | a redistribution empties the center piles and splits their shuffled cards, the larger half into center draw pile 1 |
| GameRules.RedistributeKeepsCenterCards | src/model/game.ts:116-128 | after a redistribution the board holds exactly the old center-pile cards |
| GameRules.SplitKeepsCards | src/model/game.ts:124-126 | slicing at `halfIndex` loses no card |
| GameRules.RevealTopsFacts | src/model/game.ts:132-137 | a stocked center draw pile's head becomes its center pile's top; an empty one leaves its side alone |
| GameRules.RevealOneSide | src/model/game.ts:132-137 | moving the head of a draw pile onto its center pile keeps that side's cards |
| GameRules.RevealTopsKeepsSides | src/model/game.ts:132-137 | revealing keeps each side's cards |
| GameRules.RevealTopsKeepsCards | src/model/game.ts:132-137 | revealing keeps the board's cards |
| GameRules.RoundDraws | src/model/game.ts:112-129 | a redistribution spends draws; a round without one spends none |
| GameRules.RedistributingRoundCards | src/model/game.ts:110-141 | a round with a redistribution leaves exactly the old center-pile cards, so center-draw cards are lost |
| GameRules.ReshuffleRoundCards | src/model/game.ts:110-141 | a reshuffle round never adds a card; one without a redistribution keeps them all |
| GameRules.SingleCardRoundIsFixed | src/model/game.ts:110-141 | a round on a board holding one center top and nothing else spends one draw and gives back the same board |
| GameRules.SingleCardReshuffleNeverEnds | src/model/game.ts:110-141 | while that card fits neither hand, every draw is spent and the board never changes, so the source loop does not exit |
| GameRules.ReshuffleOutcome | src/model/game.ts:107-142 | `shuffleUntilNotDead`: rounds of `Refill` and `RevealTops` while the layout is dead, ending when no card or no draw is left for a redistribution; its meaning is `ReshuffleOutcomeFacts` |
| GameRules.ReshuffleOutcomeFacts | src/model/game.ts:107-142 | a live board is left alone; otherwise the reshuffle ends live, out of cards, or out of draws; and it never gains a card |
| GameRules.DealLayout | src/model/game.ts:23-31 | the hands, draw piles, center piles and center draw piles cut from one 52-card deck |
| GameRules.DealAt | src/model/game.ts:24-31 | dealing from the rest of a deck takes its next `n` cards |
| GameRules.DealLayoutIsDealCardsChain | src/model/game.ts:23-31 | the constructor's eight `dealCards` calls give the layout's slices and empty the deck |
| GameRules.DealLayoutSplitsDeck | src/model/game.ts:23-31 | hands 4, draw piles 16, center piles 1, center draw piles 5, together the whole deck |
| GameRules.FreshDealHoldsEveryCard | src/model/game.ts:23-31 | a deal from a fresh deck holds every card 0..51 exactly once |
| GameRules.IndexOf | src/model/game.ts:38 | `indexOf` returns the first position holding the card |
| GameRules.PlayedHand | src/model/game.ts:72-80 | the hand after a move: the played slot takes the draw pile's head, or is removed when the draw pile is empty |
| GameRules.DrawnPile | src/model/game.ts:82-83 | the draw pile after a move: its head is gone when it had one |
| GameRules.PlaceCard | src/model/game.ts:89-93 | the played card goes on top of the chosen center pile |
| GameRules.PlayedHandCards | src/model/game.ts:72-83 | the hand and draw pile lose exactly the played card |
| GameRules.PlaceCardCards | src/model/game.ts:89-93 | the board gains exactly the played card |
| GameRules.PlayKeepsCards | src/model/game.ts:72-95 | up to the reshuffle, a valid move creates and loses no card |
| GameRules.PlayedHandShape | src/model/game.ts:74-79 | the drawn card takes the played card's slot and the hand keeps its size while the draw pile lasts |
| GameRules.PlayedHandEmpty | src/model/game.ts:84-86 | the hand empties only when its last card is played with nothing left to draw |
| GameRules.ReportedNewCard | src/model/game.ts:72-103 | `newCard`: the old draw pile's head, or -1 when the draw pile read after the move is empty |
| GameRules.ReportedNewCardCases | src/model/game.ts:103 | `newCard` is the drawn card, or -1 when the draw pile (as read after the move) is empty |
| GameModel.Decks | src/model/game.ts:23 | one 52-card deck per deal |
| GameModel.DecksAreFull | src/model/game.ts:23 | every dealt deck holds each card once |
| GameModel.FirstLiveDeal | src/model/game.ts:19-32 | the constructor's loop: deal from each deck in turn until the layout is live, keeping the last deal when all are dead |
| GameModel.FirstLiveDealIsFirst | src/model/game.ts:19-32 | the constructor's layout is the deal of some deck, every earlier deal was dead, and it is live unless it is the last deal |
| GameModel.FirstLiveDealIsFull | src/model/game.ts:19-32 | the constructor's layout holds every card once |
| GameModel.FirstLiveDealDeadOnlyIfAllDead | src/model/game.ts:19-32 | the constructor ends dead only when every deal was dead |
| GameModel.ResumeStep | src/model/game.ts:19-32 | loop-step lemma for `DealUntilLive`: one unfolding of the search for a live deal |
| GameModel.DealUntilLive | src/model/game.ts:19-32 | the dealing loop ends with the first live deal |
| GameModel.Penalize | src/model/game.ts:62 | an invalid move takes half a point off a positive score only |
| GameModel.RecordPlay | src/model/game.ts:72-94 | the seat's new hand, draw pile and score after a valid move |
| GameModel.Game.constructor | src/model/game.ts:18-35 | the layout is the first live deal, no player has joined, and the seats hold players 1 and 2 with zero scores |
| GameModel.Game.UseCard | src/model/game.ts:37-105 | the Default id changes nothing; an invalid card only costs half a point; a valid card updates the seat, the center pile, the discarded pile and the board, and reports the move |
| GameModel.Game.PlayValidCard | src/model/game.ts:81-96 | the state after a valid move and the reshuffle that follows it |
| GameModel.Game.PlaceOnCenter | src/model/game.ts:89-95 | the card goes onto the chosen center pile and the discarded pile |
| GameModel.Game.ShuffleUntilNotDead | src/model/game.ts:107-142 | the board becomes the specified reshuffle outcome; hands, scores and the discarded pile are not touched |
| GameModel.Game.RedistributeCenterPiles | src/model/game.ts:112-129 | the board becomes the specified redistribution |
| GameModel.Game.RevealTopCards | src/model/game.ts:131-137 | the board becomes the specified reveal |
| GameModel.Game.PlayerJoin | src/model/game.ts:144-154 | seats slot 1 if free, else slot 2 if free and the socket differs, else changes nothing; with a non-empty socket at most two players are counted |
| GameModel.Game.CheckIsDead | src/model/game.ts:156-174 | the result, for either order of players, is that no card in either hand validates; nothing changes |
| GameModel.Game.Winner | src/model/game.ts:219-236 | `[]` while both hands hold cards; otherwise winner first with the higher score, and on a tie the player who emptied a hand, player 1 first |

## Left out

- Bitwise operators: JavaScript converts operands to 32-bit integers. The model works on unbounded naturals, which agree with those rules for every value a card takes (0..51).
- Randomness: `Math.random()` values are exact reals supplied by the caller, not IEEE doubles. The product `draw * n` is written as a repeated sum.
- `console.warn` at src/model/game.ts:119 is output only.
- Cards.DealCards: `splice` shrinks the array in place. The model returns the dealt cards and the rest as values, so array aliasing is not modelled.
- Cards.ShuffleSteps: this only states the length. The permutation property is `ShuffleStepsPermutes`. Uniformity of the shuffle, and the test that a shuffled deck changes order, are probabilistic and not modelled.
- GameModel.Game.constructor: a finite list of per-deal draws bounds the redeal loop, which the source does not bound. If every deal in the list is dead, the last one is kept (`FirstLiveDealDeadOnlyIfAllDead`).
- GameModel.Game.constructor: the two players are created once, from the final deal, rather than once per deal. Earlier `Player` objects cannot be observed.
- GameModel.Game.constructor: the source's `checkIsDead` coin flip is not modelled, because its result does not depend on the order of players.
- GameModel.Game.ShuffleUntilNotDead: the loop is bounded by the draws supplied. It stops (`OutOfDraws`) when they cannot pay for the next redistribution. The source would go on drawing, and on some boards it never stops (`SingleCardReshuffleNeverEnds`). It calls `CheckIsDead(true)` in place of the coin flip; the result is the same for either order of players.
- GameModel.Game.UseCard: a card missing from the hand of a seated id is excluded by precondition. The source would go on with `indexOf` = -1, `undefined >> 2` and `copy[-1]`.
- GameModel.Game.UseCard: the returned state omits the `game` field (the game itself).
- Conservation of all 52 cards holds after the deal (`FirstLiveDealIsFull`) and through a move up to the reshuffle (`PlayKeepsCards`). It is not claimed after a reshuffle, where the code loses cards, nor with `discardedPile`, which holds copies.
- The newer API that the tests and listeners use is not part of this model. It has `game.players`, dealing on the second join (src/model/__test__/game.test.ts:19-29), `useCard(card, PlayerId)` (src/listener/game_events/game_update.ts:57-60) and a `{winner, loser}` result. The model follows the API of src/model/game.ts.
- Socket wiring, room maps, configuration and the database client are I/O and are not part of this model.
- `Penalize`, `RecordPlay`, `PlayValidCard`, `PlaceOnCenter`, `RedistributeCenterPiles`, `RevealTopCards` and `DealUntilLive` are inline code of the source, moved into methods of their own. This keeps each proof small.
