/// Optional values: the model's stand-in for JavaScript's `undefined`.
module Wrappers {

  datatype Option<T> = None | Some(value: T)
}

/// The enumerations and constants shared by the card utilities and the game
/// (src/types/enums.ts and src/types/constant.ts).  A TypeScript numeric enum
/// is a set of named numbers; each datatype here carries `Value()`, the number
/// the enum member stands for.
module Enums {

  /// A card is a plain number, `(face << SUIT_BIN_WIDTH) | suit`.
  type Card = nat

  /// Number of low bits that hold the suit of a card.
  const SUIT_BIN_WIDTH: nat := 2

  /// Sentinel "no card", used for an empty draw pile.
  const CARD_HOLDER: int := -1

  /// Number of cards in a full deck.
  const DECK_SIZE: nat := 52

  datatype Suit = Diamonds | Clubs | Hearts | Spades {
    function Value(): (v: nat)
      ensures v < 4
    {
      match this
      case Diamonds => 0
      case Clubs => 1
      case Hearts => 2
      case Spades => 3
    }
  }

  /// Ranks in increasing order; Ace is the highest and is numbered 12.
  datatype FaceValue =
    | Two | Three | Four | Five | Six | Seven | Eight
    | Nine | Ten | Jack | Queen | King | Ace
  {
    function Value(): (v: nat)
      ensures v < 13
    {
      match this
      case Two => 0
      case Three => 1
      case Four => 2
      case Five => 3
      case Six => 4
      case Seven => 5
      case Eight => 6
      case Nine => 7
      case Ten => 8
      case Jack => 9
      case Queen => 10
      case King => 11
      case Ace => 12
    }
  }

  /// Where a card went; a move result reports one of these.
  datatype Destination =
    | P1Hand | P2Hand | P1DrawPile | P2DrawPile
    | CenterPile1 | CenterPile2 | CenterDrawPile1 | CenterDrawPile2
  {
    function Value(): (v: nat)
      ensures v < 8
    {
      match this
      case P1Hand => 0
      case P2Hand => 1
      case P1DrawPile => 2
      case P2DrawPile => 3
      case CenterPile1 => 4
      case CenterPile2 => 5
      case CenterDrawPile1 => 6
      case CenterDrawPile2 => 7
    }
  }

  /// Seat of a player; `Default` (0) is "no player".
  datatype PlayerId = Default | Player1 | Player2

  /// Outcome of checking a card against the two center piles.
  datatype Validality = Center1Valid | Center2Valid | Invalid
}
