/**
 The entities of the Continuum card game: card types, cards, players and
 action payloads, as plain immutable values.
 */
module Cards {

  datatype Option<+T> = None | Some(value: T)

  /** The four card colours, in the order the catalog and the games table list them. */
  datatype Color = Red | Green | Purple | Blue

  /** The four card suits, in the order the catalog lists them. */
  datatype Suit = Key | Skull | Ring | Feather

  const Colors: seq<Color> := [Red, Green, Purple, Blue]
  const Suits: seq<Suit> := [Key, Skull, Ring, Feather]

  /**
   A card type of the catalog. The value column is an unconstrained number;
   the catalog only ever fills it with 1 to 4.
   */
  datatype CardType = CardType(color: Color, suit: Suit, value: int)

  /**
   A card of one game. A card lies on the continuum (`index` set, no owner),
   in a player's hand (`playerId` set, no index) or is the codex card (neither).
   */
  datatype Card = Card(id: int, gameId: int, playerId: Option<int>, index: Option<int>, cardType: CardType)

  /** A `Top` player walks the continuum in the opposite direction. */
  datatype PlayerOrientation = Top | Bottom

  datatype Player = Player(id: int, userId: int, gameId: int, position: int, points: int, orientation: PlayerOrientation)

  datatype ActionType = Move | Deploy | Replace

  datatype ActionPayload = ActionPayload(cardId: int, targetIndex: int, actionType: ActionType)

  datatype GameState = Created | Ended | Setup | Started

  datatype GamePhase = Deployment | Movement | Combat | Replacement

  /** The game snapshot a service call hands back (its card list is not modelled). */
  datatype GameSnapshot = GameSnapshot(
    activePlayerId: int,
    winnerId: int,
    codexColor: Color,
    points: int,
    state: GameState,
    phase: GamePhase)
}
