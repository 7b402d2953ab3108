/// One participant of a game (src/model/player.ts).
module Players {
  import opened Enums

  /// Everything a player holds, as one value.
  datatype PlayerView = PlayerView(
    hand: seq<Card>,
    drawPile: seq<Card>,
    playerID: PlayerId,
    socketID: string,
    name: string,
    halfPoints: int)

  class Player {
    var hand: seq<Card>
    var drawPile: seq<Card>
    var playerID: PlayerId
    var socketID: string
    var name: string
    /// The score `point`, counted in half-points: every score change in the
    /// game is +1, +5 or -0.5, so twice the score is always an integer.
    var halfPoints: int

    function View(): PlayerView
      reads this
    {
      PlayerView(hand, drawPile, playerID, socketID, name, halfPoints)
    }

    constructor (hand: seq<Card>, drawPile: seq<Card>, playerID: PlayerId)
      ensures View() == PlayerView(hand, drawPile, playerID, "", "", 0)
    {
      this.hand := hand;
      this.drawPile := drawPile;
      this.playerID := playerID;
      this.name := "";
      this.socketID := "";
      this.halfPoints := 0;
    }

    method SetName(name: string)
      modifies this`name
      ensures View() == old(View()).(name := name)
    {
      this.name := name;
    }
  }
}
