/**
  The data model of the Zonk dice game: die and turn enumerations, the
  records the game store keeps, the permission snapshot, and the victory
  threshold (model/state.ts).
 */
module State {

  /** The score a player must reach for the victory check to name a winner. */
  const VictoryScore: int := 1000

  /** Every die is in exactly one of these seven states. */
  datatype DieStatus =
    | Ready     // waiting to be picked up at the start of a level
    | InHand    // picked up, about to be thrown
    | Rolling   // in the air or bouncing
    | Resting   // settled in the playfield
    | Spaz      // out of bounds; only `setDiceStatus` could set it, and no modelled caller does
    | Held      // selected by the player after a roll
    | Scored    // held dice that a completed roll locked in

  /** A die: a stable id, its face value (0 while unthrown) and its status. */
  datatype Die = Die(id: string, value: int, status: DieStatus)

  /** The state of the current player's turn; there is no "spaz" turn state. */
  datatype TurnState = Ready | InProgress | Complete | Busted

  datatype Player = Player(id: string, name: string, score: int)

  /** One resolved roll: the dice that were held and the points they made. */
  datatype RollResult = RollResult(dice: seq<Die>, points: int)

  datatype Option<T> = None | Some(value: T)

  /**
    The permission snapshot: seven plain guards and one guard parameterised
    by a player name. The names already taken are captured when the snapshot
    is computed, as the source's closure captures the player list.
   */
  datatype Permissions = Permissions(
    takenNames: seq<string>,
    canStartGame: bool,
    canStartTurn: bool,
    canAdvancePlayer: bool,
    canCompleteRoll: bool,
    canThrowDie: bool,
    canHoldDice: bool,
    canBankPoints: bool)
  {
    predicate CanAddPlayer(name: string) {
      |name| > 0 && name !in takenNames
    }
  }

  /**
    The whole game record. `round` 0 is the pregame, `currentPlayerIndex` -1
    means no turn was ever started, `level` counts the hot-dice cycles of the
    current turn and `points` is the turn's unbanked total.
   */
  datatype Game = Game(
    players: seq<Player>,
    round: int,
    currentPlayerIndex: int,
    points: int,
    level: int,
    dice: seq<Die>,
    rolls: seq<RollResult>,
    winner: Option<Player>,
    turnState: TurnState)
}
