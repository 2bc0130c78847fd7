/**
  The game store (model/useGameStore.ts): the permission projection and
  every action, each a function from the game record to the next one. The
  source's nested action calls become function composition; its
  `updatePermissions` refresh becomes the derived projection `Project`.
 */
module Store {
  import opened State
  import opened Rules

  // ---------------------------------------------------------------------------
  // Dice helpers

  /** The ids the store gives its five dice when it is created. */
  const DieIds: seq<string> := ["die-1", "die-2", "die-3", "die-4", "die-5"]

  /** Two dice lists hold the same dice: same length, same id at each index. */
  predicate SameIds(a: seq<Die>, b: seq<Die>) {
    |a| == |b| && forall i :: 0 <= i < |a| ==> a[i].id == b[i].id
  }

  predicate DistinctIds(dice: seq<Die>) {
    forall i, j :: 0 <= i < j < |dice| ==> dice[i].id != dice[j].id
  }

  /** The dice whose status is one of `sts`, in order. */
  function Select(dice: seq<Die>, sts: set<DieStatus>): (r: seq<Die>)
    ensures |r| <= |dice|
    ensures forall d :: d in r ==> d in dice && d.status in sts
    ensures |r| == 0 <==> forall i :: 0 <= i < |dice| ==> dice[i].status !in sts
  {
    if |dice| == 0 then []
    else
      var rest := Select(dice[1..], sts);
      assert forall i :: 1 <= i < |dice| ==> dice[i] == dice[1..][i - 1];
      (if dice[0].status in sts then [dice[0]] else []) + rest
  }

  /** The filter keeps every die with a listed status, as often as it occurs, and no other. */
  lemma {:induction false} SelectCounts(dice: seq<Die>, sts: set<DieStatus>)
    ensures forall d :: multiset(Select(dice, sts))[d] == if d.status in sts then multiset(dice)[d] else 0
  {
    if |dice| > 0 {
      SelectCounts(dice[1..], sts);
      assert dice == [dice[0]] + dice[1..];
    }
  }

  /** The filter keeps order: filtering a concatenation concatenates the filtered parts. */
  lemma {:induction false} SelectAppend(a: seq<Die>, b: seq<Die>, sts: set<DieStatus>)
    ensures Select(a + b, sts) == Select(a, sts) + Select(b, sts)
  {
    if |a| > 0 {
      var h := if a[0].status in sts then [a[0]] else [];
      assert (a + b)[0] == a[0];
      assert (a + b)[1..] == a[1..] + b;
      assert Select(a + b, sts) == h + Select(a[1..] + b, sts);
      SelectAppend(a[1..], b, sts);
      assert Select(a, sts) == h + Select(a[1..], sts);
    } else {
      assert a + b == b;
    }
  }

  lemma SelectStep(dice: seq<Die>, sts: set<DieStatus>)
    requires |dice| > 0
    ensures multiset(Faces(Select(dice, sts)))
         == (if dice[0].status in sts then multiset{dice[0].value} else multiset{})
            + multiset(Faces(Select(dice[1..], sts)))
  {
    var h := if dice[0].status in sts then [dice[0]] else [];
    assert Select(dice, sts) == h + Select(dice[1..], sts);
    FacesAppend(h, Select(dice[1..], sts));
  }

  /** Selecting by two disjoint status sets splits the faces of the selection. */
  lemma {:induction false} SelectSplit(dice: seq<Die>, a: set<DieStatus>, b: set<DieStatus>)
    requires a !! b
    ensures multiset(Faces(Select(dice, a + b)))
         == multiset(Faces(Select(dice, a))) + multiset(Faces(Select(dice, b)))
  {
    if |dice| > 0 {
      SelectSplit(dice[1..], a, b);
      SelectStep(dice, a + b);
      SelectStep(dice, a);
      SelectStep(dice, b);
    }
  }

  /** The index of the first die with status `st`, if there is one. */
  function FirstWith(dice: seq<Die>, st: DieStatus): (r: Option<nat>)
    ensures r.None? <==> forall i :: 0 <= i < |dice| ==> dice[i].status != st
    ensures r.Some? ==>
      && r.value < |dice| && dice[r.value].status == st
      && forall i :: 0 <= i < r.value ==> dice[i].status != st
  {
    if |dice| == 0 then None
    else if dice[0].status == st then Some(0)
    else match FirstWith(dice[1..], st)
      case None => None
      case Some(k) => Some(k + 1)
  }

  /** The index of the first die with the given id, if there is one. */
  function FirstWithId(dice: seq<Die>, id: string): (r: Option<nat>)
    ensures r.None? <==> forall i :: 0 <= i < |dice| ==> dice[i].id != id
    ensures r.Some? ==>
      && r.value < |dice| && dice[r.value].id == id
      && forall i :: 0 <= i < r.value ==> dice[i].id != id
  {
    if |dice| == 0 then None
    else if dice[0].id == id then Some(0)
    else match FirstWithId(dice[1..], id)
      case None => None
      case Some(k) => Some(k + 1)
  }

  /** `startRolling` on the dice: every ready or resting die is picked up. */
  function PickUp(dice: seq<Die>): (r: seq<Die>)
    ensures SameIds(dice, r)
    ensures forall i :: 0 <= i < |r| ==> r[i].status != DieStatus.Ready && r[i].status != Resting
    ensures forall i :: 0 <= i < |r| ==> r[i].value == dice[i].value
    ensures forall i ::
      0 <= i < |r| && (dice[i].status == DieStatus.Ready || dice[i].status == Resting) ==>
      r[i] == dice[i].(status := InHand)
    ensures forall i ::
      0 <= i < |r| && dice[i].status != DieStatus.Ready && dice[i].status != Resting ==> r[i] == dice[i]
  {
    seq(|dice|, i requires 0 <= i < |dice| =>
      if dice[i].status == DieStatus.Ready || dice[i].status == Resting
      then dice[i].(status := InHand) else dice[i])
  }

  /** `resetDice` and the first step of `startLevel`: fresh, unthrown dice. */
  function ResetAll(dice: seq<Die>): (r: seq<Die>)
    ensures SameIds(dice, r)
    ensures forall i :: 0 <= i < |r| ==> r[i].value == 0 && r[i].status == DieStatus.Ready
  {
    seq(|dice|, i requires 0 <= i < |dice| => dice[i].(value := 0, status := DieStatus.Ready))
  }

  /** The dice after `quitGame`: every die ready again, its face kept. */
  function ReadyAll(dice: seq<Die>): (r: seq<Die>)
    ensures SameIds(dice, r)
    ensures forall i :: 0 <= i < |r| ==> r[i].value == dice[i].value && r[i].status == DieStatus.Ready
  {
    seq(|dice|, i requires 0 <= i < |dice| => dice[i].(status := DieStatus.Ready))
  }

  /** Every die whose id is listed takes the new status. */
  function SetStatus(dice: seq<Die>, ids: seq<string>, st: DieStatus): (r: seq<Die>)
    ensures SameIds(dice, r)
    ensures forall i :: 0 <= i < |r| ==> r[i].value == dice[i].value
    ensures forall i :: 0 <= i < |r| ==> (dice[i].id in ids ==> r[i].status == st)
    ensures forall i :: 0 <= i < |r| ==> (dice[i].id !in ids ==> r[i] == dice[i])
  {
    seq(|dice|, i requires 0 <= i < |dice| =>
      if dice[i].id in ids then dice[i].(status := st) else dice[i])
  }

  /** Every die with the given id shows the new face; statuses stay. */
  function SetValue(dice: seq<Die>, id: string, value: int): (r: seq<Die>)
    ensures SameIds(dice, r)
    ensures forall i :: 0 <= i < |r| ==> r[i].status == dice[i].status
    ensures forall i :: 0 <= i < |r| ==> r[i].value == if dice[i].id == id then value else dice[i].value
  {
    seq(|dice|, i requires 0 <= i < |dice| =>
      if dice[i].id == id then dice[i].(value := value) else dice[i])
  }

  /**
    `throwDie` on the dice: the first die in hand starts rolling. The source
    matches by that die's id, so with distinct ids no other die changes; with
    no die in hand nothing changes.
   */
  function ThrowNext(dice: seq<Die>): (r: seq<Die>)
    ensures SameIds(dice, r)
    ensures FirstWith(dice, InHand).None? ==> r == dice
    ensures FirstWith(dice, InHand).Some? ==>
      var k := FirstWith(dice, InHand).value;
      && r[k] == dice[k].(status := Rolling)
      && (DistinctIds(dice) ==> forall i :: 0 <= i < |dice| && i != k ==> r[i] == dice[i])
  {
    match FirstWith(dice, InHand)
    case None => dice
    case Some(k) =>
      seq(|dice|, i requires 0 <= i < |dice| =>
        if dice[i].id == dice[k].id then dice[i].(status := Rolling) else dice[i])
  }

  /**
    `toggleHold` on the dice: the die with this id becomes resting if it was
    held and held otherwise, whatever its status was.
   */
  function Toggle(dice: seq<Die>, id: string): (r: seq<Die>)
    ensures SameIds(dice, r)
    ensures forall i :: 0 <= i < |dice| && dice[i].id != id ==> r[i] == dice[i]
    ensures DistinctIds(dice) ==> forall i :: 0 <= i < |dice| && dice[i].id == id ==>
      r[i] == dice[i].(status := if dice[i].status == Held then Resting else Held)
  {
    var isHeld := match FirstWithId(dice, id)
      case None => false
      case Some(k) => dice[k].status == Held;
    var st := if isHeld then Resting else Held;
    seq(|dice|, i requires 0 <= i < |dice| =>
      if dice[i].id == id then dice[i].(status := st) else dice[i])
  }

  /** The dice after a completed roll: held dice become scored. */
  function ScoreHeld(dice: seq<Die>): (r: seq<Die>)
    ensures SameIds(dice, r)
    ensures forall i :: 0 <= i < |r| ==> r[i].status != Held && r[i].value == dice[i].value
    ensures forall i :: 0 <= i < |r| ==>
      (dice[i].status == Held ==> r[i].status == Scored) && (dice[i].status != Held ==> r[i] == dice[i])
  {
    seq(|dice|, i requires 0 <= i < |dice| =>
      if dice[i].status == Held then dice[i].(status := Scored) else dice[i])
  }

  // ---------------------------------------------------------------------------
  // Players

  function Names(players: seq<Player>): (r: seq<string>)
    ensures |r| == |players|
  {
    seq(|players|, i requires 0 <= i < |players| => players[i].name)
  }

  predicate UniqueNames(players: seq<Player>) {
    forall i, j :: 0 <= i < j < |players| ==> players[i].name != players[j].name
  }

  /** The players without those carrying `id`, in their order. */
  function RemoveById(players: seq<Player>, id: string): (r: seq<Player>)
    ensures forall p :: p in r <==> p in players && p.id != id
    ensures UniqueNames(players) ==> UniqueNames(r)
  {
    if |players| == 0 then []
    else
      var rest := RemoveById(players[1..], id);
      assert forall p :: p in players[1..] ==> p in players;
      assert UniqueNames(players) ==> forall p :: p in rest ==> p.name != players[0].name by {
        if UniqueNames(players) {
          forall p | p in rest ensures p.name != players[0].name {
            var j :| 0 <= j < |players[1..]| && players[1..][j] == p;
            assert players[j + 1] == p;
          }
        }
      }
      if players[0].id == id then rest else [players[0]] + rest
  }

  /** Each player without the id stays as often as it occurred; those with it are gone. */
  lemma {:induction false} RemoveByIdCounts(players: seq<Player>, id: string)
    ensures forall p :: multiset(RemoveById(players, id))[p] == if p.id != id then multiset(players)[p] else 0
  {
    if |players| > 0 {
      RemoveByIdCounts(players[1..], id);
      assert players == [players[0]] + players[1..];
    }
  }

  /**
    The remaining players keep their turn order: removing from a
    concatenation concatenates the two removals, and a single player stays
    exactly when the id differs. Together these fix the result as the
    order-preserving filter.
   */
  lemma {:induction false} RemoveByIdAppend(a: seq<Player>, b: seq<Player>, id: string)
    ensures RemoveById(a + b, id) == RemoveById(a, id) + RemoveById(b, id)
    ensures |a| == 1 ==> RemoveById(a, id) == if a[0].id != id then a else []
  {
    if |a| > 0 {
      assert (a + b)[0] == a[0];
      assert (a + b)[1..] == a[1..] + b;
      RemoveByIdAppend(a[1..], b, id);
      if |a| == 1 {
        assert a[1..] == [];
      }
    } else {
      assert a + b == b;
    }
  }

  function ZeroScores(players: seq<Player>): (r: seq<Player>)
    ensures Names(r) == Names(players)
    ensures forall i :: 0 <= i < |r| ==> r[i] == players[i].(score := 0)
  {
    seq(|players|, i requires 0 <= i < |players| => players[i].(score := 0))
  }

  lemma MultipleMod(k: int, n: int)
    requires n > 0
    ensures (k * n) % n == 0
  {
    var x := k * n;
    var t := k - x / n;
    assert x % n == n * t;
  }

  /** JavaScript's `%`: the remainder takes the sign of the dividend. */
  function JsRemainder(a: int, n: int): (r: int)
    requires n > 0
    ensures a >= 0 ==> r == a % n
    ensures a < 0 ==> -n < r <= 0 && (a - r) % n == 0
    ensures -n < r < n
  {
    if a >= 0 then a % n
    else
      var q, m := (-a) / n, (-a) % n;
      assert a + m == (-q) * n;
      MultipleMod(-q, n);
      -m
  }

  // ---------------------------------------------------------------------------
  // The victory scan

  /** Lowest index holding the strictly highest score. */
  predicate IsFirstBest(players: seq<Player>, k: int) {
    && 0 <= k < |players|
    && (forall j :: 0 <= j < |players| ==> players[j].score <= players[k].score)
    && (forall j :: 0 <= j < k ==> players[j].score < players[k].score)
  }

  /**
    The scan of `checkForVictory`: start from index 0 and score 0 and take a
    player only when their score is strictly higher, so ties keep the lower
    index. Returns (index, score).
   */
  function Leader(players: seq<Player>): (r: (nat, int))
    ensures r.1 >= 0
    ensures forall j :: 0 <= j < |players| ==> players[j].score <= r.1
    ensures r.1 > 0 ==> IsFirstBest(players, r.0) && players[r.0].score == r.1
    ensures r.1 == 0 ==> r.0 == 0
  {
    if |players| == 0 then (0, 0)
    else
      var last := |players| - 1;
      var prev := Leader(players[..last]);
      assert forall j :: 0 <= j < last ==> players[..last][j] == players[j];
      if players[last].score > prev.1 then (last, players[last].score) else prev
  }

  // ---------------------------------------------------------------------------
  // The permission projection (`updatePermissions`)

  predicate CanAddPlayer(g: Game, name: string) {
    |name| > 0 && name !in Names(g.players)
  }

  predicate CanStartGame(g: Game) {
    g.winner.None? || (g.round == 0 && |g.players| > 0)
  }

  predicate CanStartTurn(g: Game) {
    g.winner.None? && g.turnState != InProgress
  }

  predicate CanAdvancePlayer(g: Game) {
    g.winner.None? && (g.turnState == Complete || g.turnState == Busted)
  }

  /** No die is in hand or rolling: the last throw has settled. */
  predicate IsRollComplete(dice: seq<Die>) {
    |Select(dice, {InHand})| == 0 && |Select(dice, {Rolling})| == 0
  }

  predicate CanCompleteRoll(g: Game) {
    var heldDice := Select(g.dice, {Held});
    g.turnState == InProgress && |heldDice| > 0 && PointsForDice(heldDice).isValidHold
  }

  predicate CanThrowDie(g: Game) {
    g.turnState == InProgress && |Select(g.dice, {InHand})| > 0 && |Select(g.dice, {Rolling})| == 0
  }

  predicate CanHoldDice(g: Game) {
    g.turnState == InProgress && |Select(g.dice, {Resting})| > 0 && IsRollComplete(g.dice)
  }

  /** The projection scores the held dice followed by the resting ones. */
  predicate CanBankPoints(g: Game) {
    var activeDice := Select(g.dice, {Held}) + Select(g.dice, {Resting});
    g.turnState == InProgress && PointsForDice(activeDice).points > 0 && IsRollComplete(g.dice)
  }

  /** `updatePermissions`: the snapshot of every guard for the game `g`. */
  function Project(g: Game): Permissions {
    Permissions(
      takenNames := Names(g.players),
      canStartGame := CanStartGame(g),
      canStartTurn := CanStartTurn(g),
      canAdvancePlayer := CanAdvancePlayer(g),
      canCompleteRoll := CanCompleteRoll(g),
      canThrowDie := CanThrowDie(g),
      canHoldDice := CanHoldDice(g),
      canBankPoints := CanBankPoints(g))
  }

  /**
    The dice guards in terms of single dice: a die in hand and none rolling
    to throw; a resting die and none in hand or rolling to hold; a held die
    and a valid hold to complete a roll.
   */
  lemma DiceGuards(g: Game)
    ensures CanThrowDie(g) <==>
      && g.turnState == InProgress
      && FirstWith(g.dice, InHand).Some?
      && FirstWith(g.dice, Rolling).None?
    ensures CanHoldDice(g) <==>
      && g.turnState == InProgress
      && FirstWith(g.dice, Resting).Some?
      && FirstWith(g.dice, InHand).None?
      && FirstWith(g.dice, Rolling).None?
    ensures CanCompleteRoll(g) <==>
      && g.turnState == InProgress
      && FirstWith(g.dice, Held).Some?
      && PointsForDice(Select(g.dice, {Held})).isValidHold
  {
  }

  /** The name guard of the snapshot is the name guard of the game. */
  lemma ProjectAddPlayer(g: Game, name: string)
    ensures Project(g).CanAddPlayer(name) <==> CanAddPlayer(g, name)
  {
  }

  /** The points a bank would add: the held and resting dice, scored together. */
  function ActivePoints(dice: seq<Die>): int {
    PointsForDice(Select(dice, {Resting, Held})).points
  }

  /**
    The projection scores held-then-resting dice, `bankPoints` scores them in
    table order; both give the same points.
   */
  lemma ActivePointsAgree(g: Game)
    ensures PointsForDice(Select(g.dice, {Held}) + Select(g.dice, {Resting})).points == ActivePoints(g.dice)
  {
    var held := Select(g.dice, {Held});
    var resting := Select(g.dice, {Resting});
    FacesAppend(held, resting);
    SelectSplit(g.dice, {Resting}, {Held});
    assert {Resting} + {Held} == {Resting, Held};
    PermutationInvariant(Faces(held + resting), Faces(Select(g.dice, {Resting, Held})));
  }

  // ---------------------------------------------------------------------------
  // The game invariant

  /** The five dice the store was created with, unthrown and ready. */
  function InitialDice(): seq<Die> {
    seq(5, i requires 0 <= i < 5 => Die(DieIds[i], 0, DieStatus.Ready))
  }

  function Initial(): Game {
    Game([], 0, -1, 0, 0, InitialDice(), [], None, TurnState.Ready)
  }

  /**
    What every action keeps: the same five dice in the same order, player
    names unique, no negative turn points or scores, and an index no lower
    than the pregame -1.
   */
  predicate Inv(g: Game) {
    && SameIds(g.dice, InitialDice())
    && UniqueNames(g.players)
    && g.points >= 0
    && (forall i :: 0 <= i < |g.players| ==> g.players[i].score >= 0)
    && g.currentPlayerIndex >= -1
  }

  lemma InitialInv()
    ensures Inv(Initial())
    ensures DistinctIds(Initial().dice)
  {
  }

  lemma InvDistinctIds(g: Game)
    requires Inv(g)
    ensures DistinctIds(g.dice)
  {
  }

  // ---------------------------------------------------------------------------
  // Internal actions

  /** `startRolling`: the ready and resting dice are picked up. */
  function StartRolling(g: Game): (r: Game)
    ensures r == g.(dice := r.dice)
    ensures r.dice == PickUp(g.dice)
    ensures Inv(g) ==> Inv(r)
  {
    g.(dice := PickUp(g.dice))
  }

  function StartLevel(g: Game): (r: Game)
    ensures r == g.(dice := r.dice, level := g.level + 1, rolls := [])
    ensures SameIds(g.dice, r.dice)
    ensures forall i :: 0 <= i < |r.dice| ==> r.dice[i].value == 0 && r.dice[i].status == InHand
  {
    StartRolling(g.(dice := ResetAll(g.dice), level := g.level + 1, rolls := []))
  }

  function StartPlayerTurn(g: Game): (r: Game)
    ensures r == g.(dice := r.dice, level := 1, rolls := [], points := 0, turnState := InProgress)
    ensures SameIds(g.dice, r.dice)
    ensures forall i :: 0 <= i < |r.dice| ==> r.dice[i].value == 0 && r.dice[i].status == InHand
  {
    StartLevel(g.(points := 0, level := 0, turnState := InProgress))
  }

  /**
    `checkForVictory`: only when the current player is the last one, the
    lowest-index player with the highest score wins if that score reaches the
    victory threshold. In every other case the winner is cleared.
   */
  function CheckForVictory(g: Game): (r: Game)
    ensures r == g.(winner := r.winner)
    ensures g.currentPlayerIndex != |g.players| - 1 ==> r.winner == None
    ensures g.currentPlayerIndex == |g.players| - 1 ==>
      (r.winner.Some? <==> exists j :: 0 <= j < |g.players| && g.players[j].score >= VictoryScore)
    ensures r.winner.Some? ==> exists k :: IsFirstBest(g.players, k) && r.winner.value == g.players[k]
  {
    if g.currentPlayerIndex == |g.players| - 1 then
      var high := Leader(g.players);
      g.(winner := if high.1 >= VictoryScore then Some(g.players[high.0]) else None)
    else
      g.(winner := None)
  }

  function ResetDice(g: Game): (r: Game)
    ensures r == g.(dice := ResetAll(g.dice))
    ensures Inv(g) ==> Inv(r)
  {
    g.(dice := ResetAll(g.dice))
  }

  // ---------------------------------------------------------------------------
  // Pregame actions

  function AddPlayer(g: Game, id: string, name: string): (r: Game)
    requires CanAddPlayer(g, name)
    ensures r == g.(players := r.players)
    ensures |r.players| == |g.players| + 1
    ensures r.players[..|g.players|] == g.players
    ensures r.players[|g.players|] == Player(id, name, 0)
    ensures Inv(g) ==> Inv(r)
  {
    assert forall i :: 0 <= i < |g.players| ==> g.players[i].name == Names(g.players)[i];
    g.(players := g.players + [Player(id, name, 0)])
  }

  function RemovePlayer(g: Game, id: string): (r: Game)
    ensures r == g.(players := r.players)
    ensures r.players == RemoveById(g.players, id)
    ensures forall p :: p in r.players <==> p in g.players && p.id != id
    ensures Inv(g) ==> Inv(r)
  {
    g.(players := RemoveById(g.players, id))
  }

  /**
    `startGame`. The pregame button is gated by `canStartGame`, but the
    rematch button calls it whenever there is a winner, so it takes no guard.
   */
  function StartGame(g: Game): (r: Game)
    ensures r.round == 1 && r.currentPlayerIndex == 0 && r.winner == None
    ensures r.points == 0 && r.level == 1 && r.turnState == InProgress && r.rolls == []
    ensures Names(r.players) == Names(g.players)
    ensures forall i :: 0 <= i < |r.players| ==> r.players[i] == g.players[i].(score := 0)
    ensures SameIds(g.dice, r.dice)
    ensures forall i :: 0 <= i < |r.dice| ==> r.dice[i].value == 0 && r.dice[i].status == InHand
    ensures Inv(g) ==> Inv(r)
  {
    StartPlayerTurn(g.(round := 1, currentPlayerIndex := 0, players := ZeroScores(g.players), winner := None))
  }

  // ---------------------------------------------------------------------------
  // Turn actions

  function AdvancePlayer(g: Game): (r: Game)
    requires CanAdvancePlayer(g)
    requires |g.players| > 0
    ensures g.currentPlayerIndex >= -1 ==>
      0 <= r.currentPlayerIndex < |g.players| && r.currentPlayerIndex == (g.currentPlayerIndex + 1) % |g.players|
    ensures r.round == g.round + 1 <==> g.currentPlayerIndex == |g.players| - 1
    ensures g.currentPlayerIndex != |g.players| - 1 ==> r.round == g.round
    ensures r.players == g.players && r.winner == g.winner
    ensures r.points == 0 && r.level == 1 && r.turnState == InProgress && r.rolls == []
    ensures SameIds(g.dice, r.dice)
    ensures forall i :: 0 <= i < |r.dice| ==> r.dice[i].value == 0 && r.dice[i].status == InHand
    ensures Inv(g) ==> Inv(r)
  {
    var i := g.currentPlayerIndex;
    var n := |g.players|;
    StartPlayerTurn(g.(currentPlayerIndex := JsRemainder(i + 1, n),
                       round := if i == n - 1 then g.round + 1 else g.round))
  }

  /**
    `bankPoints`: the current player's score grows by the turn's points plus
    the points of the held and resting dice; the turn is complete and the
    victory check runs.
   */
  function BankPoints(g: Game): (r: Game)
    requires CanBankPoints(g)
    requires 0 <= g.currentPlayerIndex < |g.players|
    ensures |r.players| == |g.players| && Names(r.players) == Names(g.players)
    ensures r.players[g.currentPlayerIndex]
         == g.players[g.currentPlayerIndex].(score := g.players[g.currentPlayerIndex].score + g.points + ActivePoints(g.dice))
    ensures forall j :: 0 <= j < |g.players| && j != g.currentPlayerIndex ==> r.players[j] == g.players[j]
    ensures r.points == g.points + ActivePoints(g.dice)
    ensures ActivePoints(g.dice) > 0
    ensures r.turnState == Complete
    ensures r == g.(players := r.players, points := r.points, turnState := Complete, winner := r.winner)
    ensures Inv(g) ==> Inv(r)
  {
    ActivePointsAgree(g);
    var idx := g.currentPlayerIndex;
    var rollPoints := ActivePoints(g.dice);
    var newScore := g.players[idx].score + g.points + rollPoints;
    var players := g.players[idx := g.players[idx].(score := newScore)];
    assert Names(players) == Names(g.players);
    CheckForVictory(g.(players := players, points := g.points + rollPoints, turnState := Complete))
  }

  /**
    Banking runs the victory check on the new scores: only a bank by the last
    player can name a winner, and it does exactly when some score reaches the
    threshold.
   */
  lemma BankPointsVictory(g: Game)
    requires CanBankPoints(g)
    requires 0 <= g.currentPlayerIndex < |g.players|
    ensures
      var r := BankPoints(g);
      && (g.currentPlayerIndex != |g.players| - 1 ==> r.winner == None)
      && (g.currentPlayerIndex == |g.players| - 1 ==>
           (r.winner.Some? <==> exists j :: 0 <= j < |r.players| && r.players[j].score >= VictoryScore))
      && (r.winner.Some? ==> exists k :: IsFirstBest(r.players, k) && r.winner.value == r.players[k])
  {
    var r := BankPoints(g);
    var mid := g.(players := r.players, points := r.points, turnState := Complete);
    assert r == CheckForVictory(mid);
  }

  /**
    `setDiceStatus`, the physics callback. The turn busts exactly when, after
    the update, no die is in hand or rolling and the resting dice (possibly
    none) score nothing; a bust runs the victory check.
   */
  function SetDiceStatus(g: Game, ids: seq<string>, st: DieStatus): (r: Game)
    ensures r.dice == SetStatus(g.dice, ids, st)
    ensures
      var d := r.dice;
      var busted := (forall i :: 0 <= i < |d| ==> d[i].status != InHand && d[i].status != Rolling)
        && IsBusted(Select(d, {Resting}));
      && (busted ==> r.turnState == Busted && r == CheckForVictory(g.(dice := d, turnState := Busted)))
      && (!busted ==> r == g.(dice := d))
    ensures Inv(g) ==> Inv(r)
  {
    var newDice := SetStatus(g.dice, ids, st);
    var diceInHand := Select(newDice, {InHand});
    var rollingDice := Select(newDice, {Rolling});
    var restingDice := Select(newDice, {Resting});
    var playerBusted := |diceInHand| == 0 && |rollingDice| == 0 && IsBusted(restingDice);
    var next := g.(dice := newDice, turnState := if playerBusted then Busted else g.turnState);
    if playerBusted then CheckForVictory(next) else next
  }

  /** `setDieValue`, the physics callback that reports a settled face. */
  function SetDieValue(g: Game, id: string, value: int): (r: Game)
    ensures r == g.(dice := SetValue(g.dice, id, value))
    ensures Inv(g) ==> Inv(r)
  {
    g.(dice := SetValue(g.dice, id, value))
  }

  function ThrowDie(g: Game): (r: Game)
    requires CanThrowDie(g)
    ensures r == g.(dice := r.dice)
    ensures SameIds(g.dice, r.dice)
    ensures
      var k := FirstWith(g.dice, InHand);
      && k.Some?
      && r.dice[k.value] == g.dice[k.value].(status := Rolling)
      && (DistinctIds(g.dice) ==> forall i :: 0 <= i < |g.dice| && i != k.value ==> r.dice[i] == g.dice[i])
    ensures Inv(g) ==> Inv(r)
  {
    DiceGuards(g);
    g.(dice := ThrowNext(g.dice))
  }

  function ToggleHold(g: Game, id: string): (r: Game)
    requires CanHoldDice(g)
    ensures r == g.(dice := Toggle(g.dice, id))
    ensures Inv(g) ==> Inv(r)
  {
    g.(dice := Toggle(g.dice, id))
  }

  /**
    `completeRoll`: the held dice are recorded as a roll and scored, and the
    turn's points grow by their score. With no resting die left a new level
    starts, which also clears the roll just recorded; otherwise the resting
    dice are picked up again.
   */
  function CompleteRoll(g: Game): (r: Game)
    requires CanCompleteRoll(g)
    ensures r.points == g.points + PointsForDice(Select(g.dice, {Held})).points
    ensures r.points >= g.points
    ensures SameIds(g.dice, r.dice)
    ensures r.players == g.players && r.winner == g.winner && r.round == g.round
    ensures r.turnState == g.turnState && r.currentPlayerIndex == g.currentPlayerIndex
    ensures Inv(g) ==> Inv(r)
  {
    var heldDice := Select(g.dice, {Held});
    var restingDice := Select(g.dice, {Resting});
    var rollResult := RollResult(heldDice, PointsForDice(heldDice).points);
    PointsNonNegative(Faces(heldDice));
    var isLevelComplete := |restingDice| == 0;
    var next := g.(rolls := g.rolls + [rollResult], dice := ScoreHeld(g.dice), points := g.points + rollResult.points);
    if isLevelComplete then StartLevel(next) else StartRolling(next)
  }

  /**
    Hot dice: when no die was resting, completing the roll starts the next
    level with five fresh dice in hand and an empty roll history.
   */
  lemma CompleteRollHotDice(g: Game)
    requires CanCompleteRoll(g)
    requires |Select(g.dice, {Resting})| == 0
    ensures
      var r := CompleteRoll(g);
      && r.level == g.level + 1 && r.rolls == []
      && forall i :: 0 <= i < |r.dice| ==> r.dice[i].value == 0 && r.dice[i].status == InHand
  {
  }

  /**
    Otherwise the roll is appended to the history, held dice are scored,
    ready and resting dice go back in hand, and every other die (those
    scored in earlier rolls, say) is left as it was.
   */
  lemma CompleteRollContinues(g: Game)
    requires CanCompleteRoll(g)
    requires |Select(g.dice, {Resting})| > 0
    ensures
      var r := CompleteRoll(g);
      var held := Select(g.dice, {Held});
      && r.level == g.level
      && r.rolls == g.rolls + [RollResult(held, PointsForDice(held).points)]
      && |r.dice| == |g.dice|
      && forall i :: 0 <= i < |g.dice| ==>
        && r.dice[i].value == g.dice[i].value
        && (g.dice[i].status == Held ==> r.dice[i] == g.dice[i].(status := Scored))
        && (g.dice[i].status == Resting || g.dice[i].status == DieStatus.Ready ==>
              r.dice[i] == g.dice[i].(status := InHand))
        && (g.dice[i].status !in {Held, Resting, DieStatus.Ready} ==> r.dice[i] == g.dice[i])
  {
  }

  /**
    `quitGame`: back to the pregame with no players. The index becomes 0,
    die faces are kept, and the winner and turn state are left as they were.
   */
  function QuitGame(g: Game): (r: Game)
    ensures r.round == 0 && r.currentPlayerIndex == 0 && r.level == 0 && r.points == 0
    ensures r.players == [] && r.rolls == []
    ensures r.winner == g.winner && r.turnState == g.turnState
    ensures SameIds(g.dice, r.dice)
    ensures forall i :: 0 <= i < |r.dice| ==> r.dice[i].value == g.dice[i].value && r.dice[i].status == DieStatus.Ready
    ensures Inv(g) ==> Inv(r)
  {
    g.(round := 0, currentPlayerIndex := 0, level := 0, points := 0, players := [],
       dice := ReadyAll(g.dice), rolls := [])
  }

  // ---------------------------------------------------------------------------
  // Properties of the guards and actions

  /** A busted turn locks every dice action; advancing is left, without a winner. */
  lemma BustedLocksTurn(g: Game)
    requires g.turnState == Busted
    ensures !CanThrowDie(g) && !CanHoldDice(g) && !CanBankPoints(g) && !CanCompleteRoll(g)
    ensures CanAdvancePlayer(g) <==> g.winner.None?
  {
  }

  /** Throwing excludes holding and banking; a finished turn excludes all dice actions. */
  lemma GuardsExclusive(g: Game)
    ensures !(CanThrowDie(g) && CanHoldDice(g))
    ensures !(CanThrowDie(g) && CanBankPoints(g))
    ensures CanAdvancePlayer(g) || CanStartTurn(g) ==>
      !CanThrowDie(g) && !CanHoldDice(g) && !CanCompleteRoll(g) && !CanBankPoints(g)
  {
  }

  /** Starting a game needs no players at all as long as nobody has won. */
  lemma StartGameWithoutPlayers(g: Game)
    requires g.winner.None?
    ensures CanStartGame(g)
    ensures CanStartGame(Initial()) && |Initial().players| == 0
  {
  }

  /**
    A settle that leaves no die in hand, rolling or resting busts the turn:
    the empty resting hand scores nothing. The busted turn then allows only
    advancing, and only without a winner.
   */
  lemma EmptyRestingBusts(g: Game, ids: seq<string>, st: DieStatus)
    requires forall i :: 0 <= i < |g.dice| ==>
      var d := SetStatus(g.dice, ids, st)[i];
      d.status != InHand && d.status != Rolling && d.status != Resting
    ensures SetDiceStatus(g, ids, st).turnState == Busted
  {
    var d := SetStatus(g.dice, ids, st);
    assert Select(d, {Resting}) == [];
    EmptyHandScores();
  }

  /** After a bust every dice action is locked. */
  lemma BustLocksDice(g: Game, ids: seq<string>, st: DieStatus)
    requires g.turnState != Busted
    requires SetDiceStatus(g, ids, st).turnState == Busted
    ensures
      var r := SetDiceStatus(g, ids, st);
      && !CanThrowDie(r) && !CanHoldDice(r) && !CanBankPoints(r) && !CanCompleteRoll(r)
      && (CanAdvancePlayer(r) <==> r.winner.None?)
      && IsRollComplete(r.dice)
  {
    var r := SetDiceStatus(g, ids, st);
    BustedLocksTurn(r);
  }

  lemma SameIdsKeepDistinct(a: seq<Die>, b: seq<Die>)
    requires SameIds(a, b) && DistinctIds(a)
    ensures DistinctIds(b)
  {
  }

  /** Toggling a resting or held die twice gives back the same dice. */
  lemma ToggleTwiceRestores(dice: seq<Die>, id: string)
    requires DistinctIds(dice)
    requires forall i :: 0 <= i < |dice| && dice[i].id == id ==>
      dice[i].status == Resting || dice[i].status == Held
    ensures Toggle(Toggle(dice, id), id) == dice
  {
    var once := Toggle(dice, id);
    SameIdsKeepDistinct(dice, once);
    var twice := Toggle(once, id);
    assert forall i :: 0 <= i < |dice| ==> twice[i] == dice[i];
  }

  /** A die in hand is held by one toggle and left resting by the next. */
  lemma ToggleInHandTwice(dice: seq<Die>, k: nat)
    requires DistinctIds(dice)
    requires k < |dice| && dice[k].status == InHand
    ensures Toggle(dice, dice[k].id)[k].status == Held
    ensures Toggle(Toggle(dice, dice[k].id), dice[k].id)[k].status == Resting
  {
    var once := Toggle(dice, dice[k].id);
    SameIdsKeepDistinct(dice, once);
  }
}
