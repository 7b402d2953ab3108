/// The pure rules of src/model/game.ts: move validation, the dead-layout
/// check, and the value-level meaning of dealing, playing a card and
/// reshuffling, which the methods of `GameModel.Game` are proved against.
module GameRules {
  import opened Wrappers
  import opened Enums
  import opened Cards

  /// `pile[0]`, which is `undefined` for an empty pile.
  function Top(pile: seq<Card>): Option<Card>
  {
    if pile == [] then None else Some(pile[0])
  }

  function Abs(x: int): nat
  {
    if x < 0 then -x else x
  }

  // ---------------------------------------------------------------------
  // Move validation (src/model/game.ts:181-216)
  // ---------------------------------------------------------------------

  /// `Object.keys(FaceValue).length`: a numeric TypeScript enum has one key
  /// per member name and one per member number.
  function FaceValueKeyCount(): nat
  {
    2 * |CreateFaceValues()|
  }

  /// `twoAndAceDiff`, the distance between Ace and Two.
  function TwoAndAceDiff(): (d: int)
    ensures d == FaceValue.Ace.Value() - FaceValue.Two.Value()
  {
    FaceValueKeyCount() / 2 - 1
  }

  /// The face values of `top` and `card` are one rank apart.
  predicate RankStep(top: Option<Card>, card: Card)
  {
    top.Some? && Abs(GetFaceValue(top.value) - GetFaceValue(card)) == 1
  }

  /// The face values of `top` and `card` are Ace and Two.
  predicate RankWrap(top: Option<Card>, card: Card)
  {
    top.Some? && Abs(GetFaceValue(top.value) - GetFaceValue(card)) == 12
  }

  /// A pile with this top accepts the card.
  predicate Accepts(top: Option<Card>, card: Card)
  {
    RankStep(top, card) || RankWrap(top, card)
  }

  /// `validateMove`: which center pile, if any, takes the card.
  function ValidateMove(centerPile1TopCard: Option<Card>, centerPile2TopCard: Option<Card>, card: Card): Validality
  {
    if centerPile1TopCard.None? && centerPile2TopCard.None? then Invalid
    else
      var cardFaceValue := GetFaceValue(card);
      var center1Value := if centerPile1TopCard.Some? then Some(GetFaceValue(centerPile1TopCard.value)) else None;
      var center2Value := if centerPile2TopCard.Some? then Some(GetFaceValue(centerPile2TopCard.value)) else None;
      var twoAndAceDiff := TwoAndAceDiff();
      if center1Value.Some? && Abs(center1Value.value - cardFaceValue) == 1 then Center1Valid
      else if center2Value.Some? && Abs(center2Value.value - cardFaceValue) == 1 then Center2Valid
      else if center1Value.Some? && Abs(center1Value.value - cardFaceValue) == twoAndAceDiff then Center1Valid
      else if center2Value.Some? && Abs(center2Value.value - cardFaceValue) == twoAndAceDiff then Center2Valid
      else Invalid
  }

  /// The card is valid iff some pile accepts it; a one-rank step beats the
  /// Ace/Two wrap, and within each kind pile 1 beats pile 2.
  lemma ValidateMoveMeaning(centerPile1TopCard: Option<Card>, centerPile2TopCard: Option<Card>, card: Card)
    ensures var v := ValidateMove(centerPile1TopCard, centerPile2TopCard, card);
      && (v != Invalid <==> Accepts(centerPile1TopCard, card) || Accepts(centerPile2TopCard, card))
      && (v == Center1Valid ==> Accepts(centerPile1TopCard, card))
      && (v == Center2Valid ==> Accepts(centerPile2TopCard, card))
      && (RankStep(centerPile1TopCard, card) ==> v == Center1Valid)
      && (RankStep(centerPile2TopCard, card) && !RankStep(centerPile1TopCard, card) ==> v == Center2Valid)
      && (v == Center2Valid && !RankStep(centerPile2TopCard, card) ==> !Accepts(centerPile1TopCard, card))
  {
  }

  /// Face values `a` and `b` are neighbours in the 13-step cycle Two..Ace.
  predicate CyclicNeighbours(a: nat, b: nat)
  {
    (a + 1) % 13 == b || (b + 1) % 13 == a
  }

  /// On real cards, acceptance is exactly cyclic adjacency of the ranks.
  lemma AcceptsIsCyclicAdjacency(top: Card, card: Card)
    requires top < DECK_SIZE && card < DECK_SIZE
    ensures Accepts(Some(top), card) <==> CyclicNeighbours(GetFaceValue(top), GetFaceValue(card))
  {
  }

  /// Only face values are compared: suits never matter.
  lemma ValidateMoveIgnoresSuit(top1: Card, top2: Card, card: Card, top1': Card, top2': Card, card': Card)
    requires GetFaceValue(top1) == GetFaceValue(top1') && GetFaceValue(top2) == GetFaceValue(top2')
    requires GetFaceValue(card) == GetFaceValue(card')
    ensures ValidateMove(Some(top1), Some(top2), card) == ValidateMove(Some(top1'), Some(top2'), card')
    ensures ValidateMove(None, Some(top2), card) == ValidateMove(None, Some(top2'), card')
    ensures ValidateMove(Some(top1), None, card) == ValidateMove(Some(top1'), None, card')
  {
  }

  /// With no center card at all nothing is valid.
  lemma NothingValidOnEmptyCenter(card: Card)
    ensures ValidateMove(None, None, card) == Invalid
  {
  }

  /// `card` played against two center piles that both show `top`, all Clubs.
  function AgainstEqualTops(top: FaceValue, card: FaceValue): Validality
  {
    ValidateMove(Some(CreateCard(Clubs, top)), Some(CreateCard(Clubs, top)), CreateCard(Clubs, card))
  }

  /// The accepted rows of the validation table of the game's test suite.
  lemma ValidationTable()
    ensures AgainstEqualTops(Ace, Two) != Invalid
    ensures AgainstEqualTops(Ace, King) != Invalid
    ensures AgainstEqualTops(Jack, Queen) != Invalid
    ensures AgainstEqualTops(Five, Six) != Invalid
    ensures AgainstEqualTops(Two, Three) != Invalid
    ensures AgainstEqualTops(Four, Five) != Invalid
    ensures AgainstEqualTops(Ten, Jack) != Invalid
  {
  }

  /// The rejected rows of the same table.
  lemma RejectionTable()
    ensures AgainstEqualTops(Ace, Three) == Invalid
    ensures AgainstEqualTops(Five, Three) == Invalid
    ensures AgainstEqualTops(Five, Seven) == Invalid
    ensures AgainstEqualTops(Seven, Nine) == Invalid
    ensures AgainstEqualTops(Nine, Jack) == Invalid
    ensures AgainstEqualTops(Jack, King) == Invalid
    ensures AgainstEqualTops(Two, Four) == Invalid
  {
  }

  // ---------------------------------------------------------------------
  // Dead layouts (src/model/game.ts:156-174)
  // ---------------------------------------------------------------------

  /// The board of a game: the two face-up center piles (top first) and the
  /// two face-down center draw piles that feed them.
  datatype Board = Board(center1: seq<Card>, center2: seq<Card>, centerDraw1: seq<Card>, centerDraw2: seq<Card>)

  function BoardCards(b: Board): seq<Card>
  {
    b.center1 + b.center2 + b.centerDraw1 + b.centerDraw2
  }

  /// `checkIsDead()`: no card of either hand validates against the tops.
  predicate LayoutDead(hand1: seq<Card>, hand2: seq<Card>, b: Board)
  {
    forall c :: c in hand1 + hand2 ==> ValidateMove(Top(b.center1), Top(b.center2), c) == Invalid
  }

  // ---------------------------------------------------------------------
  // Reshuffling (src/model/game.ts:107-142)
  // ---------------------------------------------------------------------

  /// The redistribution step: shuffle center pile 1 followed by center pile 2,
  /// give the first half (rounded up) to center draw pile 1 and the rest to
  /// center draw pile 2, and empty both center piles.  Whatever was left in
  /// the center draw piles is overwritten.
  function Redistribute(b: Board, draws: seq<Draw>): Board
    requires |draws| == |b.center1| + |b.center2|
  {
    var combinedCenterPile := b.center1 + b.center2;
    var shuffled := ShuffleSteps(combinedCenterPile, |combinedCenterPile|, draws);
    var halfIndex := (|shuffled| + 1) / 2;
    Board([], [], shuffled[..halfIndex], shuffled[halfIndex..])
  }

  /// The center piles end up empty and their cards are split over the center
  /// draw piles, the larger half first.
  lemma RedistributeFacts(b: Board, draws: seq<Draw>)
    requires |draws| == |b.center1| + |b.center2|
    ensures var r := Redistribute(b, draws);
            && r.center1 == [] && r.center2 == []
            && |r.centerDraw1| == (|draws| + 1) / 2 && |r.centerDraw2| == |draws| / 2
            && multiset(r.centerDraw1 + r.centerDraw2) == multiset(b.center1 + b.center2)
  {
    var combinedCenterPile := b.center1 + b.center2;
    var shuffled := ShuffleSteps(combinedCenterPile, |combinedCenterPile|, draws);
    ShuffleStepsPermutes(combinedCenterPile, |combinedCenterPile|, draws);
    var halfIndex := (|shuffled| + 1) / 2;
    assert shuffled[..halfIndex] + shuffled[halfIndex..] == shuffled;
  }

  /// Moves the head of each non-empty center draw pile onto the front of its
  /// center pile.
  function RevealTops(b: Board): Board
  {
    var r1 := if b.centerDraw1 != [] then b.(center1 := [b.centerDraw1[0]] + b.center1, centerDraw1 := b.centerDraw1[1..]) else b;
    if r1.centerDraw2 != [] then r1.(center2 := [r1.centerDraw2[0]] + r1.center2, centerDraw2 := r1.centerDraw2[1..]) else r1
  }

  /// A stocked center draw pile gives up its head as the new top of its
  /// center pile; an empty one leaves its side alone.
  lemma RevealTopsFacts(b: Board)
    ensures var r := RevealTops(b);
      && (b.centerDraw1 != [] ==> Top(r.center1) == Some(b.centerDraw1[0]) && |r.centerDraw1| == |b.centerDraw1| - 1)
      && (b.centerDraw2 != [] ==> Top(r.center2) == Some(b.centerDraw2[0]) && |r.centerDraw2| == |b.centerDraw2| - 1)
      && (b.centerDraw1 == [] ==> r.center1 == b.center1 && r.centerDraw1 == [])
      && (b.centerDraw2 == [] ==> r.center2 == b.center2 && r.centerDraw2 == [])
  {
  }

  /// Each side of the board keeps its cards when the tops are revealed.
  lemma RevealTopsKeepsSides(b: Board)
    ensures var r := RevealTops(b);
      && multiset(r.center1 + r.centerDraw1) == multiset(b.center1 + b.centerDraw1)
      && multiset(r.center2 + r.centerDraw2) == multiset(b.center2 + b.centerDraw2)
  {
    if b.centerDraw1 != [] {
      RevealOneSide(b.center1, b.centerDraw1);
    }
    if b.centerDraw2 != [] {
      RevealOneSide(b.center2, b.centerDraw2);
    }
  }

  lemma RevealOneSide(center: seq<Card>, centerDraw: seq<Card>)
    requires centerDraw != []
    ensures multiset([centerDraw[0]] + center + centerDraw[1..]) == multiset(center + centerDraw)
  {
    assert centerDraw == [centerDraw[0]] + centerDraw[1..];
  }

  lemma RevealTopsKeepsCards(b: Board)
    ensures multiset(BoardCards(RevealTops(b))) == multiset(BoardCards(b))
  {
    var r := RevealTops(b);
    RevealTopsKeepsSides(b);
    calc {
      multiset(BoardCards(r));
      multiset(r.center1) + multiset(r.center2) + multiset(r.centerDraw1) + multiset(r.centerDraw2);
      multiset(r.center1 + r.centerDraw1) + multiset(r.center2 + r.centerDraw2);
      multiset(b.center1 + b.centerDraw1) + multiset(b.center2 + b.centerDraw2);
      multiset(BoardCards(b));
    }
  }

  /// A center draw pile has run out, so the round starts by redistributing
  /// the center piles.
  predicate NeedsRedistribution(b: Board)
  {
    b.centerDraw1 == [] || b.centerDraw2 == []
  }

  /// A redistribution is due but both center piles are empty: the reshuffle
  /// gives up (src/model/game.ts:118-121).
  predicate OutOfCards(b: Board)
  {
    NeedsRedistribution(b) && b.center1 == [] && b.center2 == []
  }

  /// A redistribution is due but the random source has fewer draws left
  /// than there are cards to shuffle: the bound of the model.
  predicate OutOfDraws(b: Board, draws: seq<Draw>)
  {
    NeedsRedistribution(b) && |draws| < |b.center1| + |b.center2|
  }

  /// The board a round reveals new tops on: redistributed with the first
  /// draws when a center draw pile is empty, else unchanged.
  function Refill(b: Board, draws: seq<Draw>): (r: Board)
    requires !OutOfDraws(b, draws)
  {
    if NeedsRedistribution(b) then Redistribute(b, draws[..|b.center1| + |b.center2|]) else b
  }

  /// The draws a round leaves unused.
  function RoundDraws(b: Board, draws: seq<Draw>): (r: seq<Draw>)
    requires !OutOfDraws(b, draws)
    ensures !OutOfCards(b) && NeedsRedistribution(b) ==> |r| < |draws|
    ensures !NeedsRedistribution(b) ==> r == draws
  {
    if NeedsRedistribution(b) then draws[|b.center1| + |b.center2|..] else draws
  }

  /// A round that redistributes leaves exactly the cards of the old center
  /// piles: whatever was left in a center draw pile is gone.
  lemma RedistributingRoundCards(b: Board, draws: seq<Draw>)
    requires NeedsRedistribution(b) && !OutOfDraws(b, draws)
    ensures multiset(BoardCards(RevealTops(Refill(b, draws)))) == multiset(b.center1 + b.center2)
  {
    var used := draws[..|b.center1| + |b.center2|];
    var mid := Redistribute(b, used);
    assert Refill(b, draws) == mid;
    RedistributeKeepsCenterCards(b, used);
    RevealTopsKeepsCards(mid);
  }

  /// After a redistribution the board holds exactly the old center cards.
  lemma RedistributeKeepsCenterCards(b: Board, draws: seq<Draw>)
    requires |draws| == |b.center1| + |b.center2|
    ensures multiset(BoardCards(Redistribute(b, draws))) == multiset(b.center1 + b.center2)
  {
    var combinedCenterPile := b.center1 + b.center2;
    var shuffled := ShuffleSteps(combinedCenterPile, |combinedCenterPile|, draws);
    ShuffleStepsPermutes(combinedCenterPile, |combinedCenterPile|, draws);
    var halfIndex := (|shuffled| + 1) / 2;
    assert Redistribute(b, draws) == Board([], [], shuffled[..halfIndex], shuffled[halfIndex..]);
    SplitKeepsCards(shuffled, halfIndex);
  }

  lemma SplitKeepsCards(s: seq<Card>, h: nat)
    requires h <= |s|
    ensures multiset(BoardCards(Board([], [], s[..h], s[h..]))) == multiset(s)
  {
    assert BoardCards(Board([], [], s[..h], s[h..])) == s[..h] + s[h..] == s;
  }

  /// A round of the reshuffle never adds a card to the board; one that does
  /// not redistribute keeps the board's cards.
  lemma ReshuffleRoundCards(b: Board, draws: seq<Draw>)
    requires !OutOfDraws(b, draws)
    ensures multiset(BoardCards(RevealTops(Refill(b, draws)))) <= multiset(BoardCards(b))
    ensures !NeedsRedistribution(b) ==> multiset(BoardCards(RevealTops(Refill(b, draws)))) == multiset(BoardCards(b))
  {
    if NeedsRedistribution(b) {
      RedistributingRoundCards(b, draws);
      assert BoardCards(b) == (b.center1 + b.center2) + (b.centerDraw1 + b.centerDraw2);
    } else {
      RevealTopsKeepsCards(b);
    }
  }

  /// A board whose only card is one center top comes back unchanged from a
  /// round: the card is redistributed into center draw pile 1 and revealed
  /// again, at the cost of one draw.
  lemma SingleCardRoundIsFixed(x: Card, draws: seq<Draw>)
    requires |draws| >= 1
    ensures RevealTops(Refill(Board([x], [], [], []), draws)) == Board([x], [], [], [])
    ensures RoundDraws(Board([x], [], [], []), draws) == draws[1..]
  {
    assert Swap([x], 0, RandomIndex(draws[0], 1)) == [x];
    assert ShuffleSteps([x], 1, draws[..1]) == [x];
  }

  /// While that card fits neither hand, the reshuffle never leaves its loop:
  /// it spends every draw and ends on the board it began with.
  lemma {:induction false} SingleCardReshuffleNeverEnds(hand1: seq<Card>, hand2: seq<Card>, x: Card, draws: seq<Draw>)
    requires LayoutDead(hand1, hand2, Board([x], [], [], []))
    ensures ReshuffleOutcome(hand1, hand2, Board([x], [], [], []), draws) == (Board([x], [], [], []), [])
    decreases |draws|
  {
    if |draws| >= 1 {
      SingleCardRoundIsFixed(x, draws);
      SingleCardReshuffleNeverEnds(hand1, hand2, x, draws[1..]);
    }
  }

  /// The board `shuffleUntilNotDead` leaves, and the draws it leaves unused:
  /// rounds are played while the board is dead, until no card or no draw is
  /// left for a redistribution.
  function ReshuffleOutcome(hand1: seq<Card>, hand2: seq<Card>, b: Board, draws: seq<Draw>): (Board, seq<Draw>)
    decreases |draws|, |b.centerDraw1| + |b.centerDraw2|
  {
    if !LayoutDead(hand1, hand2, b) || OutOfCards(b) || OutOfDraws(b, draws) then (b, draws)
    else
      RevealTopsFacts(b);
      ReshuffleOutcome(hand1, hand2, RevealTops(Refill(b, draws)), RoundDraws(b, draws))
  }

  /// A live board is left alone; otherwise the reshuffle ends with a live
  /// board, or one with no cards or draws left for a redistribution; and
  /// the board never gains a card.
  lemma {:induction false} ReshuffleOutcomeFacts(hand1: seq<Card>, hand2: seq<Card>, b: Board, draws: seq<Draw>)
    ensures !LayoutDead(hand1, hand2, b) ==> ReshuffleOutcome(hand1, hand2, b, draws) == (b, draws)
    ensures var r := ReshuffleOutcome(hand1, hand2, b, draws);
            !LayoutDead(hand1, hand2, r.0) || OutOfCards(r.0) || OutOfDraws(r.0, r.1)
    ensures multiset(BoardCards(ReshuffleOutcome(hand1, hand2, b, draws).0)) <= multiset(BoardCards(b))
    decreases |draws|, |b.centerDraw1| + |b.centerDraw2|
  {
    if LayoutDead(hand1, hand2, b) && !OutOfCards(b) && !OutOfDraws(b, draws) {
      ReshuffleRoundCards(b, draws);
      ReshuffleOutcomeFacts(hand1, hand2, RevealTops(Refill(b, draws)), RoundDraws(b, draws));
    }
  }

  // ---------------------------------------------------------------------
  // Dealing (src/model/game.ts:18-35)
  // ---------------------------------------------------------------------

  /// Both players' hands and draw piles, and the board.
  datatype Layout = Layout(hand1: seq<Card>, drawPile1: seq<Card>, hand2: seq<Card>, drawPile2: seq<Card>, board: Board)

  function LayoutCards(l: Layout): seq<Card>
  {
    l.hand1 + l.drawPile1 + l.hand2 + l.drawPile2 + BoardCards(l.board)
  }

  /// One round of the constructor's deal from a 52-card deck: four cards
  /// and sixteen for player 1, the same for player 2, then one card to each
  /// center pile and five to each center draw pile, as consecutive slices.
  function DealLayout(deck: seq<Card>): Layout
    requires |deck| == DECK_SIZE
  {
    Layout(deck[..4], deck[4..20], deck[20..24], deck[24..40],
           Board(deck[40..41], deck[41..42], deck[42..47], deck[47..]))
  }

  /// Dealing `n` cards from the part of `deck` after position `i` takes
  /// the next `n` cards and leaves the rest.
  lemma DealAt(deck: seq<Card>, i: nat, n: nat)
    requires i + n <= |deck|
    ensures DealCards(deck[i..], n) == (deck[i..i + n], deck[i + n..])
  {
    assert deck[i..][..n] == deck[i..i + n];
    assert deck[i..][n..] == deck[i + n..];
  }

  /// The slices are what the constructor's eight `dealCards` calls on the
  /// same deck return, one after the other.
  lemma DealLayoutIsDealCardsChain(deck: seq<Card>)
    requires |deck| == DECK_SIZE
    ensures var (hand1, rest1) := DealCards(deck, 4);
            var (drawPile1, rest2) := DealCards(rest1, 16);
            var (hand2, rest3) := DealCards(rest2, 4);
            var (drawPile2, rest4) := DealCards(rest3, 16);
            var (center1, rest5) := DealCards(rest4, 1);
            var (center2, rest6) := DealCards(rest5, 1);
            var (centerDraw1, rest7) := DealCards(rest6, 5);
            var (centerDraw2, rest8) := DealCards(rest7, 5);
            && rest8 == []
            && DealLayout(deck) == Layout(hand1, drawPile1, hand2, drawPile2, Board(center1, center2, centerDraw1, centerDraw2))
  {
    assert deck[0..] == deck;
    DealAt(deck, 0, 4);
    DealAt(deck, 4, 16);
    DealAt(deck, 20, 4);
    DealAt(deck, 24, 16);
    DealAt(deck, 40, 1);
    DealAt(deck, 41, 1);
    DealAt(deck, 42, 5);
    DealAt(deck, 47, 5);
  }

  /// The deal hands out the whole deck, in order, in the stated sizes.
  lemma DealLayoutSplitsDeck(deck: seq<Card>)
    requires |deck| == DECK_SIZE
    ensures var l := DealLayout(deck);
            && |l.hand1| == 4 && |l.drawPile1| == 16 && |l.hand2| == 4 && |l.drawPile2| == 16
            && |l.board.center1| == 1 && |l.board.center2| == 1
            && |l.board.centerDraw1| == 5 && |l.board.centerDraw2| == 5
            && LayoutCards(l) == deck
  {
    assert deck == deck[..4] + deck[4..20] + deck[20..24] + deck[24..40]
                 + (deck[40..41] + deck[41..42] + deck[42..47] + deck[47..]);
  }

  /// `checkIsDead()` for a whole layout.
  predicate LayoutIsDead(l: Layout)
  {
    LayoutDead(l.hand1, l.hand2, l.board)
  }

  /// A game dealt from a freshly created deck holds every card 0..51
  /// exactly once.
  lemma FreshDealHoldsEveryCard(draws: seq<Draw>)
    requires |draws| == DECK_SIZE
    ensures IsFullDeck(LayoutCards(DealLayout(ShuffledDeck(draws))))
    ensures Distinct(LayoutCards(DealLayout(ShuffledDeck(draws))))
  {
    ShuffledDeckIsFull(draws);
    DealLayoutSplitsDeck(ShuffledDeck(draws));
  }

  // ---------------------------------------------------------------------
  // Playing a card (src/model/game.ts:37-105)
  // ---------------------------------------------------------------------

  /// `indexOf`: the first position holding `x`.
  function IndexOf(s: seq<Card>, x: Card): (i: nat)
    requires x in s
    ensures i < |s| && s[i] == x && x !in s[..i]
  {
    if s[0] == x then 0
    else
      var j := IndexOf(s[1..], x);
      assert s[..j + 1] == [s[0]] + s[1..][..j];
      j + 1
  }

  /// The hand after the card at `index` is played: the slot takes the first
  /// card of the draw pile, or is removed when the draw pile is empty.
  function PlayedHand(hand: seq<Card>, drawPile: seq<Card>, index: nat): seq<Card>
    requires index < |hand|
  {
    if drawPile != [] then hand[index := drawPile[0]] else hand[..index] + hand[index + 1..]
  }

  /// The draw pile after the play: it loses its first card, if any.
  function DrawnPile(drawPile: seq<Card>): seq<Card>
  {
    if drawPile != [] then drawPile[1..] else drawPile
  }

  /// The board after `card` goes to the front of center pile 1 or 2.
  function PlaceCard(b: Board, toCenter1: bool, card: Card): Board
  {
    if toCenter1 then b.(center1 := [card] + b.center1) else b.(center2 := [card] + b.center2)
  }

  /// Playing a card moves it from the hand to a center pile and one card
  /// from the draw pile into the hand: no card is created or lost.
  lemma PlayKeepsCards(hand: seq<Card>, drawPile: seq<Card>, index: nat, b: Board, toCenter1: bool)
    requires index < |hand|
    ensures multiset(PlayedHand(hand, drawPile, index) + DrawnPile(drawPile)) + multiset(BoardCards(PlaceCard(b, toCenter1, hand[index])))
         == multiset(hand + drawPile) + multiset(BoardCards(b))
  {
    PlayedHandCards(hand, drawPile, index);
    PlaceCardCards(b, toCenter1, hand[index]);
  }

  /// The hand and draw pile lose exactly the played card.
  lemma PlayedHandCards(hand: seq<Card>, drawPile: seq<Card>, index: nat)
    requires index < |hand|
    ensures multiset(PlayedHand(hand, drawPile, index) + DrawnPile(drawPile)) + multiset{hand[index]} == multiset(hand + drawPile)
  {
    assert hand == hand[..index] + [hand[index]] + hand[index + 1..];
    if drawPile != [] {
      assert drawPile == [drawPile[0]] + drawPile[1..];
      assert PlayedHand(hand, drawPile, index) == hand[..index] + [drawPile[0]] + hand[index + 1..];
    }
  }

  /// The board gains exactly the placed card.
  lemma PlaceCardCards(b: Board, toCenter1: bool, card: Card)
    ensures multiset(BoardCards(PlaceCard(b, toCenter1, card))) == multiset{card} + multiset(BoardCards(b))
  {
  }

  /// The hand keeps its size while the draw pile lasts, the drawn card takes
  /// the played card's slot, and the other slots are kept.
  lemma PlayedHandShape(hand: seq<Card>, drawPile: seq<Card>, index: nat)
    requires index < |hand|
    ensures |PlayedHand(hand, drawPile, index)| == if drawPile != [] then |hand| else |hand| - 1
    ensures drawPile != [] ==> forall k :: 0 <= k < |hand| && k != index ==> PlayedHand(hand, drawPile, index)[k] == hand[k]
    ensures drawPile != [] ==> PlayedHand(hand, drawPile, index)[index] == drawPile[0]
  {
  }

  /// The `newCard` a valid move reports: the first card of the draw pile as
  /// it was before the move, or -1, depending on whether the pile read after
  /// the move (`player.drawPile`) is empty.
  function ReportedNewCard(drawPileBefore: seq<Card>, drawPileAfter: seq<Card>): int
  {
    var newCard := if drawPileBefore != [] then drawPileBefore[0] else CARD_HOLDER;
    if drawPileAfter != [] then newCard else -1
  }

  /// When the player passed in is the seated player, the pile read after the
  /// move is the shortened one, so drawing the last card reports -1; when it
  /// is a separate copy, the card drawn (or -1) is reported.
  lemma ReportedNewCardCases(drawPile: seq<Card>)
    ensures ReportedNewCard(drawPile, DrawnPile(drawPile)) == if |drawPile| >= 2 then drawPile[0] else -1
    ensures ReportedNewCard(drawPile, drawPile) == if drawPile != [] then drawPile[0] else -1
  {
  }

  /// A hand is emptied exactly when its last card is played with nothing
  /// left to draw.
  lemma PlayedHandEmpty(hand: seq<Card>, drawPile: seq<Card>, index: nat)
    requires index < |hand|
    ensures PlayedHand(hand, drawPile, index) == [] <==> |hand| == 1 && drawPile == []
  {
    PlayedHandShape(hand, drawPile, index);
  }
}
