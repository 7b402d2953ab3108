/// A game of Speed between two players (src/model/game.ts): dealing,
/// playing a card, reshuffling a dead board, seating players and deciding
/// the winner.
module GameModel {
  import opened Wrappers
  import opened Enums
  import opened Cards
  import opened Players
  import opened GameRules

  /// `GameState` without its `game` field, which is the game itself.
  datatype MoveResult = MoveResult(playerTurn: PlayerId, cardIndex: int, destination: Destination, newCard: int)

  /// What an invalid move reports.
  const INVALID_MOVE := MoveResult(Default, -1, P1Hand, -1)

  /// Each element is the stream of draws one `createDeck` call consumes.
  predicate DeckDraws(shuffles: seq<seq<Draw>>)
  {
    forall i :: 0 <= i < |shuffles| ==> |shuffles[i]| == DECK_SIZE
  }

  /// The decks successive `createDeck` calls return.
  function Decks(shuffles: seq<seq<Draw>>): (decks: seq<seq<Card>>)
    requires DeckDraws(shuffles)
    ensures |decks| == |shuffles| && DeckSizes(decks)
  {
    seq(|shuffles|, i requires 0 <= i < |shuffles| => ShuffledDeck(shuffles[i]))
  }

  predicate DeckSizes(decks: seq<seq<Card>>)
  {
    forall i :: 0 <= i < |decks| ==> |decks[i]| == DECK_SIZE
  }

  /// Every deck holds each of the 52 cards once.
  ghost predicate FullDecks(decks: seq<seq<Card>>)
  {
    DeckSizes(decks) && forall i :: 0 <= i < |decks| ==> IsFullDeck(decks[i])
  }

  lemma DecksAreFull(shuffles: seq<seq<Draw>>)
    requires DeckDraws(shuffles)
    ensures |Decks(shuffles)| == |shuffles| && FullDecks(Decks(shuffles))
  {
    forall i | 0 <= i < |shuffles|
      ensures |Decks(shuffles)[i]| == DECK_SIZE && IsFullDeck(Decks(shuffles)[i])
    {
      ShuffledDeckIsFull(shuffles[i]);
    }
  }

  /// The layout the constructor ends with, dealing from `decks[k..]`: the
  /// first deal that is not dead, or the last one when every deal is dead.
  function FirstLiveDeal(decks: seq<seq<Card>>, k: nat): Layout
    requires k < |decks| && DeckSizes(decks)
    decreases |decks| - k
  {
    var l := DealLayout(decks[k]);
    if !LayoutIsDead(l) || k == |decks| - 1 then l
    else FirstLiveDeal(decks, k + 1)
  }

  /// The constructor's layout is the deal of some deck, every earlier deal
  /// was dead, and it is live unless it is the last deal.
  lemma {:induction false} FirstLiveDealIsFirst(decks: seq<seq<Card>>, k: nat) returns (j: nat)
    requires k < |decks| && DeckSizes(decks)
    ensures k <= j < |decks| && FirstLiveDeal(decks, k) == DealLayout(decks[j])
    ensures forall i :: k <= i < j ==> LayoutIsDead(DealLayout(decks[i]))
    ensures !LayoutIsDead(FirstLiveDeal(decks, k)) || j == |decks| - 1
    decreases |decks| - k
  {
    if !LayoutIsDead(DealLayout(decks[k])) || k == |decks| - 1 {
      j := k;
    } else {
      j := FirstLiveDealIsFirst(decks, k + 1);
    }
  }

  /// The constructor's layout holds every card once.
  lemma FirstLiveDealIsFull(decks: seq<seq<Card>>)
    requires 0 < |decks| && FullDecks(decks)
    ensures IsFullDeck(LayoutCards(FirstLiveDeal(decks, 0)))
  {
    var j := FirstLiveDealIsFirst(decks, 0);
    DealLayoutSplitsDeck(decks[j]);
  }

  /// The constructor's layout is dead only when every deal was dead.
  lemma FirstLiveDealDeadOnlyIfAllDead(decks: seq<seq<Card>>)
    requires 0 < |decks| && DeckSizes(decks)
    ensures LayoutIsDead(FirstLiveDeal(decks, 0)) ==> forall i :: 0 <= i < |decks| ==> LayoutIsDead(DealLayout(decks[i]))
  {
    var j := FirstLiveDealIsFirst(decks, 0);
    if LayoutIsDead(FirstLiveDeal(decks, 0)) {
      assert j == |decks| - 1;
      forall i | 0 <= i < |decks| ensures LayoutIsDead(DealLayout(decks[i])) {
        if i == j {
          assert DealLayout(decks[i]) == FirstLiveDeal(decks, 0);
        }
      }
    }
  }

  /// Where the dealing loop stands: `l` is the layout dealt last, from
  /// `decks[k - 1]`, and the loop goes on while it is dead.
  function Resume(decks: seq<seq<Card>>, k: nat, l: Layout): Layout
    requires DeckSizes(decks)
  {
    if LayoutIsDead(l) && k < |decks| then FirstLiveDeal(decks, k) else l
  }

  lemma ResumeStep(decks: seq<seq<Card>>, k: nat, l: Layout)
    requires DeckSizes(decks) && k < |decks| && l == DealLayout(decks[k])
    ensures FirstLiveDeal(decks, k) == Resume(decks, k + 1, l)
  {
  }

  /// The dealing loop of the constructor: deals from a fresh deck for as
  /// long as the layout is dead (it is dead before the first deal, when
  /// both hands are empty); `shuffles` bounds the number of deals.
  method DealUntilLive(shuffles: seq<seq<Draw>>) returns (l: Layout)
    requires 0 < |shuffles| && DeckDraws(shuffles)
    ensures l == FirstLiveDeal(Decks(shuffles), 0)
  {
    ghost var decks := Decks(shuffles);
    l := Layout([], [], [], [], Board([], [], [], []));
    var k := 0;
    while LayoutIsDead(l) && k < |shuffles|
      invariant k <= |shuffles|
      invariant FirstLiveDeal(decks, 0) == Resume(decks, k, l)
      decreases |shuffles| - k
    {
      var deck := CreateDeck(shuffles[k]);
      assert deck[..] == decks[k];
      l := DealLayout(deck[..]);
      ResumeStep(decks, k, l);
      k := k + 1;
    }
  }

  /// The penalty for an invalid move: half a point off a positive score.
  method Penalize(seat: Player)
    modifies seat`halfPoints
    ensures seat.View() == old(seat.View()).(halfPoints := if old(seat.halfPoints) > 0 then old(seat.halfPoints) - 1 else old(seat.halfPoints))
  {
    if seat.halfPoints > 0 {
      seat.halfPoints := seat.halfPoints - 1;
    }
  }

  /// The seat's part of a valid move: the card at `index` of `hand` is
  /// replaced by the head of `drawPile` (or removed when it is empty), the
  /// draw pile loses that head, and the score gains one point, plus five
  /// more when the hand is now empty.
  method RecordPlay(seat: Player, hand: seq<Card>, drawPile: seq<Card>, index: nat)
    requires index < |hand|
    modifies seat
    ensures seat.View() == old(seat.View()).(
      hand := PlayedHand(hand, drawPile, index),
      drawPile := DrawnPile(drawPile),
      halfPoints := old(seat.halfPoints) + (if PlayedHand(hand, drawPile, index) == [] then 10 else 0) + 2)
  {
    seat.hand := PlayedHand(hand, drawPile, index);
    seat.drawPile := DrawnPile(drawPile);
    if |seat.hand| == 0 {
      seat.halfPoints := seat.halfPoints + 10;
    }
    seat.halfPoints := seat.halfPoints + 2;
  }

  class Game {
    var gameID: int
    const player1: Player
    const player2: Player
    var centerPile1: seq<Card>
    var centerPile2: seq<Card>
    var centerDrawPile1: seq<Card>
    var centerDrawPile2: seq<Card>
    var discardedPile: seq<Card>
    var numberOfPlayers: int

    /// The seats hold two distinct players with their own ids, and scores
    /// never go below zero.
    ghost predicate Valid()
      reads this, player1, player2
    {
      && player1 != player2
      && player1.playerID == Player1 && player2.playerID == Player2
      && player1.halfPoints >= 0 && player2.halfPoints >= 0
    }

    function CurrentBoard(): Board
      reads this
    {
      Board(centerPile1, centerPile2, centerDrawPile1, centerDrawPile2)
    }

    function CurrentLayout(): Layout
      reads this, player1, player2
    {
      Layout(player1.hand, player1.drawPile, player2.hand, player2.drawPile, CurrentBoard())
    }

    /// The seated player for an id.
    function Seat(id: PlayerId): Player
      requires id != Default
      reads this
    {
      if id == Player1 then player1 else player2
    }

    /// The number of joined players is the number of occupied seats, and a
    /// second player never shares the first player's socket.
    ghost predicate SeatsConsistent()
      reads this, player1, player2
    {
      && numberOfPlayers == (if player1.socketID != "" then 1 else 0) + (if player2.socketID != "" then 1 else 0)
      && (player2.socketID != "" ==> player1.socketID != "" && player1.socketID != player2.socketID)
    }

    /// Deals from a fresh deck for as long as the layout is dead (it is dead
    /// before the first deal, when both hands are empty); `shuffles` bounds
    /// the number of deals.
    constructor (gameID: int, shuffles: seq<seq<Draw>>)
      requires 0 < |shuffles| && DeckDraws(shuffles)
      ensures Valid() && SeatsConsistent()
      ensures CurrentLayout() == FirstLiveDeal(Decks(shuffles), 0)
      ensures this.gameID == gameID && discardedPile == [] && numberOfPlayers == 0
      ensures player1.socketID == "" && player1.name == "" && player1.halfPoints == 0
      ensures player2.socketID == "" && player2.name == "" && player2.halfPoints == 0
      ensures fresh(player1) && fresh(player2)
    {
      var l := DealUntilLive(shuffles);
      var p1 := new Player(l.hand1, l.drawPile1, Player1);
      var p2 := new Player(l.hand2, l.drawPile2, Player2);
      var board := l.board;
      this.gameID := gameID;
      player1 := p1;
      player2 := p2;
      centerPile1 := board.center1;
      centerPile2 := board.center2;
      centerDrawPile1 := board.centerDraw1;
      centerDrawPile2 := board.centerDraw2;
      discardedPile := [];
      numberOfPlayers := 0;
    }

    /// Plays `card` from `player`'s hand onto the center pile it fits, if
    /// any.  The seat is found by the player's id; the new hand and draw
    /// pile are computed from `player`'s own piles.  `randoms` feeds the
    /// reshuffle that follows a valid move.
    method UseCard(card: Card, player: Player, randoms: seq<Draw>) returns (result: Option<MoveResult>)
      requires Valid()
      requires player.playerID != Default ==> card in player.hand
      modifies this, player1, player2
      ensures Valid()
      ensures old(player.playerID) == Default ==> result == None && unchanged(this, player1, player2)
      ensures old(player.playerID) != Default
              && ValidateMove(old(Top(centerPile1)), old(Top(centerPile2)), card) == Invalid ==>
        var seat := Seat(old(player.playerID));
        var other := Seat(if old(player.playerID) == Player1 then Player2 else Player1);
        && result == Some(INVALID_MOVE)
        && seat.View() == old(seat.View()).(halfPoints := if old(seat.halfPoints) > 0 then old(seat.halfPoints) - 1 else old(seat.halfPoints))
        && unchanged(this, other)
      ensures old(player.playerID) != Default
              && ValidateMove(old(Top(centerPile1)), old(Top(centerPile2)), card) != Invalid ==>
        var seat := Seat(old(player.playerID));
        var other := Seat(if old(player.playerID) == Player1 then Player2 else Player1);
        var index := IndexOf(old(player.hand), card);
        var toCenter1 := ValidateMove(old(Top(centerPile1)), old(Top(centerPile2)), card) == Center1Valid;
        && seat.hand == PlayedHand(old(player.hand), old(player.drawPile), index)
        && seat.drawPile == DrawnPile(old(player.drawPile))
        && seat.halfPoints == old(seat.halfPoints) + (if seat.hand == [] then 10 else 0) + 2
        && seat.playerID == old(seat.playerID) && seat.socketID == old(seat.socketID) && seat.name == old(seat.name)
        && unchanged(other)
        && discardedPile == old(discardedPile) + [card]
        && CurrentBoard() == ReshuffleOutcome(player1.hand, player2.hand, PlaceCard(old(CurrentBoard()), toCenter1, card), randoms).0
        && gameID == old(gameID) && numberOfPlayers == old(numberOfPlayers)
        && result == Some(MoveResult(seat.playerID, index, if toCenter1 then CenterPile1 else CenterPile2,
                                     ReportedNewCard(old(player.drawPile), player.drawPile)))
    {
      var valid := player.playerID != Default;
      var index: int := if valid then IndexOf(player.hand, card) else -1;
      var targetCard := card;
      var destination := CenterPile2;
      var validality := ValidateMove(Top(centerPile1), Top(centerPile2), targetCard);
      if !valid {
        return None;
      }
      var gamePlayer := if player.playerID == Player1 then player1 else player2;
      if validality == Center1Valid {
        destination := CenterPile1;
      } else if validality == Invalid {
        Penalize(gamePlayer);
        return Some(INVALID_MOVE);
      }
      var drawPileBefore := player.drawPile;
      var newCard: int := if |drawPileBefore| > 0 then drawPileBefore[0] else CARD_HOLDER;
      PlayValidCard(gamePlayer, player.hand, drawPileBefore, index, destination == CenterPile1, targetCard, randoms);
      result := Some(MoveResult(gamePlayer.playerID, index, destination,
                                if |player.drawPile| > 0 then newCard else -1));
    }

    /// The state change of a valid move by `seat`, whose card at `index` of
    /// `hand` goes to center pile 1 or 2; the reshuffle follows.
    method PlayValidCard(seat: Player, hand: seq<Card>, drawPile: seq<Card>, index: nat,
                         toCenter1: bool, card: Card, randoms: seq<Draw>)
      requires Valid() && (seat == player1 || seat == player2) && index < |hand|
      modifies this, seat
      ensures Valid()
      ensures seat.View() == old(seat.View()).(
        hand := PlayedHand(hand, drawPile, index),
        drawPile := DrawnPile(drawPile),
        halfPoints := old(seat.halfPoints) + (if PlayedHand(hand, drawPile, index) == [] then 10 else 0) + 2)
      ensures discardedPile == old(discardedPile) + [card]
      ensures CurrentBoard() == ReshuffleOutcome(player1.hand, player2.hand, PlaceCard(old(CurrentBoard()), toCenter1, card), randoms).0
      ensures gameID == old(gameID) && numberOfPlayers == old(numberOfPlayers)
    {
      RecordPlay(seat, hand, drawPile, index);
      PlaceOnCenter(toCenter1, card);
      ShuffleUntilNotDead(randoms);
    }

    /// The center-pile part of a valid move: `card` goes on top of center
    /// pile 1 or 2 and is appended to the discarded pile.
    method PlaceOnCenter(toCenter1: bool, card: Card)
      modifies this`centerPile1, this`centerPile2, this`discardedPile
      ensures CurrentBoard() == PlaceCard(old(CurrentBoard()), toCenter1, card)
      ensures discardedPile == old(discardedPile) + [card]
    {
      if toCenter1 {
        centerPile1 := [card] + centerPile1;
      } else {
        centerPile2 := [card] + centerPile2;
      }
      discardedPile := discardedPile + [card];
    }

    /// While no card in either hand validates, refills the center piles from
    /// the center draw piles, redistributing the center piles into the draw
    /// piles whenever one of those is empty.  Gives up when no center card is
    /// left, or when `draws` cannot pay for the next redistribution.
    method ShuffleUntilNotDead(draws: seq<Draw>)
      modifies this`centerPile1, this`centerPile2, this`centerDrawPile1, this`centerDrawPile2
      ensures CurrentBoard() == ReshuffleOutcome(player1.hand, player2.hand, old(CurrentBoard()), draws).0
    {
      var isDead := CheckIsDead(true);
      var used := 0;
      while isDead
        invariant used <= |draws|
        invariant isDead == LayoutDead(player1.hand, player2.hand, CurrentBoard())
        invariant ReshuffleOutcome(player1.hand, player2.hand, CurrentBoard(), draws[used..])
               == ReshuffleOutcome(player1.hand, player2.hand, old(CurrentBoard()), draws)
        decreases |draws| - used, |centerDrawPile1| + |centerDrawPile2|
      {
        ghost var before := CurrentBoard();
        ghost var remaining := draws[used..];
        if |centerDrawPile1| == 0 || |centerDrawPile2| == 0 {
          var n := |centerPile1| + |centerPile2|;
          if n == 0 {
            return;
          }
          if |draws| - used < n {
            return;
          }
          RedistributeCenterPiles(draws[used..]);
          used := used + n;
          assert draws[used..] == remaining[n..];
        }
        assert CurrentBoard() == Refill(before, remaining) && draws[used..] == RoundDraws(before, remaining);
        RevealTopCards();
        isDead := CheckIsDead(true);
      }
    }

    /// The redistribution step: shuffle center pile 1 followed by center
    /// pile 2, using the first of `draws`, deal the first half (rounded up)
    /// to center draw pile 1 and the rest to center draw pile 2, and empty
    /// the center piles.
    method RedistributeCenterPiles(draws: seq<Draw>)
      requires NeedsRedistribution(CurrentBoard()) && !OutOfDraws(CurrentBoard(), draws)
      modifies this`centerPile1, this`centerPile2, this`centerDrawPile1, this`centerDrawPile2
      ensures CurrentBoard() == Refill(old(CurrentBoard()), draws)
    {
      var combinedCenterPile := centerPile1 + centerPile2;
      var pool := new Card[|combinedCenterPile|](i requires 0 <= i < |combinedCenterPile| => combinedCenterPile[i]);
      assert pool[..] == combinedCenterPile;
      Shuffle(pool, draws[..pool.Length]);
      var halfIndex := (pool.Length + 1) / 2;
      centerDrawPile1 := pool[..halfIndex];
      centerDrawPile2 := pool[halfIndex..];
      centerPile1 := [];
      centerPile2 := [];
    }

    /// Moves the head of each non-empty center draw pile onto its center
    /// pile.
    method RevealTopCards()
      modifies this`centerPile1, this`centerPile2, this`centerDrawPile1, this`centerDrawPile2
      ensures CurrentBoard() == RevealTops(old(CurrentBoard()))
    {
      if |centerDrawPile1| > 0 {
        centerPile1 := [centerDrawPile1[0]] + centerPile1;
        centerDrawPile1 := centerDrawPile1[1..];
      }
      if |centerDrawPile2| > 0 {
        centerPile2 := [centerDrawPile2[0]] + centerPile2;
        centerDrawPile2 := centerDrawPile2[1..];
      }
    }

    /// Seats a joining player in the first free seat; a second seat is not
    /// given to the socket already holding the first.  A seat counts as free
    /// while its socket id is empty, so joining with an empty socket id
    /// counts a player without occupying the seat.
    method PlayerJoin(playerName: string, socketID: string)
      requires Valid()
      modifies this, player1, player2
      ensures Valid()
      ensures old(player1.socketID) == "" ==>
        && player1.View() == old(player1.View()).(socketID := socketID, name := playerName)
        && unchanged(player2) && numberOfPlayers == old(numberOfPlayers) + 1
      ensures old(player1.socketID) != "" && old(player2.socketID) == "" && old(player1.socketID) != socketID ==>
        && player2.View() == old(player2.View()).(socketID := socketID, name := playerName)
        && unchanged(player1) && numberOfPlayers == old(numberOfPlayers) + 1
      ensures old(player1.socketID) != "" && (old(player2.socketID) != "" || old(player1.socketID) == socketID) ==>
        unchanged(this, player1, player2)
      ensures CurrentBoard() == old(CurrentBoard()) && discardedPile == old(discardedPile) && gameID == old(gameID)
      ensures old(SeatsConsistent()) && socketID != "" ==> SeatsConsistent() && numberOfPlayers <= 2
    {
      if player1.socketID == "" {
        player1.socketID := socketID;
        player1.name := playerName;
        numberOfPlayers := numberOfPlayers + 1;
      } else if player2.socketID == "" && player1.socketID != socketID {
        player2.socketID := socketID;
        player2.name := playerName;
        numberOfPlayers := numberOfPlayers + 1;
      }
    }

    /// Whether neither player can play: the players are scanned in an order
    /// the caller picks (the source flips a coin), hand by hand, and the scan
    /// stops at the first card that validates.
    method CheckIsDead(player1First: bool) returns (isDead: bool)
      ensures isDead == LayoutDead(player1.hand, player2.hand, CurrentBoard())
    {
      var players := if player1First then [player1, player2] else [player2, player1];
      var top1, top2 := Top(centerPile1), Top(centerPile2);
      for p := 0 to 2
        invariant forall q, i :: 0 <= q < p && 0 <= i < |players[q].hand| ==> ValidateMove(top1, top2, players[q].hand[i]) == Invalid
      {
        var hand := players[p].hand;
        for i := 0 to |hand|
          invariant forall j :: 0 <= j < i ==> ValidateMove(top1, top2, hand[j]) == Invalid
        {
          if ValidateMove(top1, top2, hand[i]) != Invalid {
            assert hand[i] in player1.hand + player2.hand;
            return false;
          }
        }
      }
      forall c | c in player1.hand + player2.hand
        ensures ValidateMove(top1, top2, c) == Invalid
      {
        if c in player1.hand {
          var i :| 0 <= i < |player1.hand| && player1.hand[i] == c;
          assert players[if player1First then 0 else 1].hand[i] == c;
        } else {
          var i :| 0 <= i < |player2.hand| && player2.hand[i] == c;
          assert players[if player1First then 1 else 0].hand[i] == c;
        }
      }
      return true;
    }

    /// `[winner, loser]` once a hand is empty, `[]` before.  The higher score
    /// wins; on a tie the player who emptied a hand wins, player 1 first.
    function Winner(): (r: seq<Player>)
      reads this, player1, player2
      ensures r == [] <==> player1.hand != [] && player2.hand != []
      ensures r != [] ==> |r| == 2 && {r[0], r[1]} == {player1, player2}
      ensures r != [] ==> r[0].halfPoints >= r[1].halfPoints
      ensures r != [] && player1.halfPoints == player2.halfPoints ==>
                r[0] == (if player1.hand == [] then player1 else player2)
      ensures r != [] && player1 != player2 && player1.halfPoints != player2.halfPoints ==>
                r[0] == (if player1.halfPoints > player2.halfPoints then player1 else player2)
    {
      if |player1.hand| != 0 && |player2.hand| != 0 then []
      else
        var player1Point := player1.halfPoints;
        var player2Point := player2.halfPoints;
        if |player1.hand| == 0 then
          if player1Point - player2Point >= 0 then [player1, player2] else [player2, player1]
        else
          if player2Point - player1Point >= 0 then [player2, player1] else [player1, player2]
    }
  }
}
