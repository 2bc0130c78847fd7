/**
  Sequences of store actions, each taken only when its guard holds, starting
  from the store's initial record (model/state.ts, the action interface of
  `GameState`; model/useGameStore.ts, the actions). The components offer an
  action only while the matching permission is set; the model takes each
  action's precondition as that gate.
 */
module Session {
  import opened State
  import opened Rules
  import Store

  /** One call into the store's action interface. */
  datatype Action =
    | AddPlayer(id: string, name: string)
    | RemovePlayer(id: string)
    | StartGame
    | StartPlayerTurn
    | StartLevel
    | AdvancePlayer
    | BankPoints
    | StartRolling
    | SetDiceStatus(ids: seq<string>, status: DieStatus)
    | SetDieValue(id: string, value: int)
    | ThrowDie
    | ToggleHold(id: string)
    | CompleteRoll
    | ResetDice
    | QuitGame
    | CheckForVictory

  /**
    Whether the action may be taken in `g`: the permission the components
    check before calling it, and what the action itself needs to be defined.
    This allows at least what the components allow, and sometimes more: the
    pregame form and its buttons (`addPlayer`, `removePlayer`, `startGame`)
    are only shown at round 0 and Rematch only once there is a winner, but
    `Enabled` does not look at the round. Properties proved for every enabled
    run therefore hold for every run the components can produce.
   */
  predicate Enabled(g: Game, a: Action) {
    match a
    case AddPlayer(_, name) => Store.CanAddPlayer(g, name)
    case AdvancePlayer => Store.CanAdvancePlayer(g) && |g.players| > 0
    case BankPoints => Store.CanBankPoints(g) && 0 <= g.currentPlayerIndex < |g.players|
    case ThrowDie => Store.CanThrowDie(g)
    case ToggleHold(_) => Store.CanHoldDice(g)
    case CompleteRoll => Store.CanCompleteRoll(g)
    case _ => true
  }

  function Step(g: Game, a: Action): Game
    requires Enabled(g, a)
  {
    match a
    case AddPlayer(id, name) => Store.AddPlayer(g, id, name)
    case RemovePlayer(id) => Store.RemovePlayer(g, id)
    case StartGame => Store.StartGame(g)
    case StartPlayerTurn => Store.StartPlayerTurn(g)
    case StartLevel => Store.StartLevel(g)
    case AdvancePlayer => Store.AdvancePlayer(g)
    case BankPoints => Store.BankPoints(g)
    case StartRolling => Store.StartRolling(g)
    case SetDiceStatus(ids, st) => Store.SetDiceStatus(g, ids, st)
    case SetDieValue(id, v) => Store.SetDieValue(g, id, v)
    case ThrowDie => Store.ThrowDie(g)
    case ToggleHold(id) => Store.ToggleHold(g, id)
    case CompleteRoll => Store.CompleteRoll(g)
    case ResetDice => Store.ResetDice(g)
    case QuitGame => Store.QuitGame(g)
    case CheckForVictory => Store.CheckForVictory(g)
  }

  /** Every action keeps the game invariant. */
  lemma StepInv(g: Game, a: Action)
    requires Enabled(g, a) && Store.Inv(g)
    ensures Store.Inv(Step(g, a))
  {
  }

  /** Runs the actions in order; `None` as soon as one is not enabled. */
  function Run(g: Game, acts: seq<Action>): Option<Game>
    decreases |acts|
  {
    if |acts| == 0 then Some(g)
    else if Enabled(g, acts[0]) then Run(Step(g, acts[0]), acts[1..])
    else None
  }

  lemma {:induction false} RunInv(g: Game, acts: seq<Action>)
    requires Store.Inv(g)
    ensures Run(g, acts).Some? ==> Store.Inv(Run(g, acts).value)
    decreases |acts|
  {
    if |acts| > 0 && Enabled(g, acts[0]) {
      StepInv(g, acts[0]);
      RunInv(Step(g, acts[0]), acts[1..]);
    }
  }

  /**
    In every game reachable from the initial record the five dice keep their
    ids and order, names stay unique, and no score or turn total is negative.
   */
  lemma ReachableInv(acts: seq<Action>)
    ensures Run(Store.Initial(), acts).Some? ==>
      var g := Run(Store.Initial(), acts).value;
      && Store.Inv(g)
      && Store.DistinctIds(g.dice)
      && |g.dice| == 5
      && (forall i :: 0 <= i < 5 ==> g.dice[i].id == Store.DieIds[i])
  {
    Store.InitialInv();
    RunInv(Store.Initial(), acts);
    if Run(Store.Initial(), acts).Some? {
      Store.InvDistinctIds(Run(Store.Initial(), acts).value);
    }
  }

  /** Running two action lists one after the other is running their concatenation. */
  lemma {:induction false} RunAppend(g: Game, xs: seq<Action>, ys: seq<Action>)
    ensures Run(g, xs + ys) ==
      match Run(g, xs)
      case None => None
      case Some(h) => Run(h, ys)
    decreases |xs|
  {
    if |xs| > 0 {
      assert (xs + ys)[0] == xs[0];
      assert (xs + ys)[1..] == xs[1..] + ys;
      if Enabled(g, xs[0]) {
        RunAppend(Step(g, xs[0]), xs[1..], ys);
      }
    } else {
      assert xs + ys == ys;
    }
  }
}
