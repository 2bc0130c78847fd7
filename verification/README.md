# Zonk: a verified model of the rules engine and game store

Zonk is a Farkle-style dice game. Five dice are thrown one at a time. The
player holds scoring dice, re-rolls the rest, banks the turn's points, or
busts. This project models the game's core in Dafny:

- **State** (`state.dfy`): the victory threshold, the seven die statuses,
  the four turn states, and the die, player, roll-result, permission and
  game records.
- **Rules** (`rules.dfy`): `pointsForDice`, `scoreForCount` and `isBusted`.
  - Straights are found by sorting the faces.
  - Groups of three, four or five are found with a seven-slot tally.
  - Single 1s and 5s are scored separately.
  - The result is compared with a face-by-face reference definition.
- **Store** (`store.dfy`): every action of the game store, each a pure
  function from one game record to the next.
  - The source's nested action calls (`startGame` → `startPlayerTurn` →
    `startLevel` → `startRolling`) become function composition.
  - The permission snapshot `updatePermissions` becomes guard predicates.
    `Project` assembles them into a `Permissions` record.
  - Each guarded action takes its guard as its precondition.
- **Session** (`session.dfy`): sequences of actions, each taken only when
  its guard holds. It proves that every reachable game keeps the same five
  dice in the same order, and keeps player names unique.
- **Labels** (`labels.dfy`): the level and turn-state labels. A level
  outside the table is printed as a decimal integer, as a template literal
  prints an integer-valued number of moderate size.

JavaScript details are modelled explicitly:

- `%` truncates toward zero (`Store.JsRemainder`).
- The tally array has seven slots, so a face outside 0..6 never counts and
  never forms a group.
- A face 0 (an unthrown die) does form a group when it occurs three times.
  Such a group is worth 0 points but consumes its dice.
- The straight test sorts the faces as strings, joins them with commas and
  compares the result with two strings. An integer's decimal form has no
  comma, and different integers print differently. So the test holds
  exactly when the faces are, as a multiset, one of the two straights.
  The model sorts numerically, which gives the same verdict
  (`Rules.StraightIffFaces`).

## Model

| member | source | states |
|---|---|---|
| Rules.SortFacesSorted | model/rules.ts:21 | the sorted faces are ordered and are a permutation of the input |
| Rules.SortedUnique | model/rules.ts:21 | two ordered sequences with the same multiset are equal, so the sort's result is determined by the multiset |
| Rules.StraightIffFaces | model/rules.ts:21-33 | the straight test holds exactly when the faces are, as a multiset, 1-2-3-4-5 or 2-3-4-5-6 |
| Rules.StraightScores | model/rules.ts:29-33 | dice whose faces are, in any order, 1-2-3-4-5 or 2-3-4-5-6 are exactly five and give 1500 points and a valid hold, with no other rule applied |
| Rules.TallyCounts | model/rules.ts:21-27 | slot v of the tally is the number of dice showing v, for v in 0..6 |
| Rules.ScoreForCountTable | model/rules.ts:3-15 | counts 3, 4 and 5 give base, 2×base and 5×base, any other count gives 0; base is 1000 for a 1 and 100×face otherwise |
| Rules.LeftoverCount | model/rules.ts:35-41 | after the group pass, a face with three or more dice has no die left and every other face keeps all of its dice |
| Rules.SinglePointsCount | model/rules.ts:43-49 | the leftover pass adds 100 per 1 and 50 per 5, and nothing for any other face, including 0 |
| Rules.ComboMatchesReference | model/rules.ts:35-51 | without a straight, the points equal the face-by-face reference sum over faces 0..6 |
| Rules.ValidHoldIff | model/rules.ts:29-51 | a hold is valid exactly when the dice form a straight or every die's face is in 0..6 and occurs at least three times |
| Rules.EmptyHandScores | model/rules.ts:17-51 | no dice give 0 points and a valid hold |
| Rules.PointsNonNegative | model/rules.ts:35-51 | points are never negative |
| Rules.PermutationInvariant | model/rules.ts:17-51 | the score depends only on the multiset of faces: any reordering gives the same points and validity |
| Rules.BustIff | model/rules.ts:54-57 | up to five dice bust exactly when there is no straight, no 1, no 5, and no face 2, 3, 4 or 6 three times |
| Rules.SinglesSpoilHold | model/rules.ts:43-51 | [1, 5] scores 150 but is not a valid hold |
| Rules.TripleOnesHold | model/rules.ts:35-51 | [1, 1, 1] scores 1000 and is a valid hold |
| Rules.NothingScores | model/rules.ts:35-51 | [4, 6] scores 0 and is not a valid hold |
| Store.Select | model/useGameStore.ts:31-34 | the filtered dice all come from the input and carry one of the statuses; the result is empty exactly when no die has one |
| Store.SelectCounts | model/useGameStore.ts:31-34 | every die with a listed status is kept, as often as it occurs, and no other die is |
| Store.SelectAppend | model/useGameStore.ts:31-34 | the filter keeps order: filtering a concatenation concatenates the filtered parts |
| Store.SelectSplit | model/useGameStore.ts:129 | filtering by two disjoint status sets at once gives, as a multiset of faces, the union of the two filters |
| Store.ActivePointsAgree | model/useGameStore.ts:36-39 | the snapshot's held-then-resting dice score the same points as the bank's resting-or-held filter |
| Store.FirstWith | model/useGameStore.ts:215 | the index of the first die with the status, or none exactly when no die has it |
| Store.PickUp | model/useGameStore.ts:166-178 | each ready or resting die becomes the same die in hand; every other die is unchanged |
| Store.ResetAll | model/useGameStore.ts:263-269 | every die keeps its id and becomes ready with face 0 |
| Store.ReadyAll | model/useGameStore.ts:279 | every die keeps its id and face and becomes ready |
| Store.SetStatus | model/useGameStore.ts:183 | listed dice take the status and keep their faces; unlisted dice are unchanged |
| Store.SetValue | model/useGameStore.ts:205-210 | dice with the id show the new face; statuses and other faces are unchanged |
| Store.ThrowNext | model/useGameStore.ts:212-222 | the first die in hand starts rolling and, with distinct ids, nothing else changes; with no die in hand the dice are unchanged |
| Store.Toggle | model/useGameStore.ts:226-235 | other dice are unchanged; with distinct ids, the die with the id becomes resting if it was held and held otherwise, whatever its status was |
| Store.ScoreHeld | model/useGameStore.ts:252 | held dice become scored; every other die is unchanged and no die stays held |
| Store.RemoveById | model/useGameStore.ts:72-77 | exactly the players without the id remain, and unique names stay unique |
| Store.RemoveByIdCounts | model/useGameStore.ts:75 | each player without the id stays as often as it occurred, and players with the id are gone |
| Store.RemoveByIdAppend | model/useGameStore.ts:75 | removal keeps turn order: it distributes over concatenation and keeps a single player exactly when the id differs |
| Store.ZeroScores | model/useGameStore.ts:84 | every player is kept with score 0 |
| Store.JsRemainder | model/useGameStore.ts:117 | the truncating remainder agrees with the mathematical one on non-negative operands; for a negative dividend it lies in (-n, 0] and differs from the dividend by a multiple of n |
| Store.Leader | model/useGameStore.ts:147-154 | the scan ends with the maximum score, held by the lowest index that reaches it, or with index 0 and score 0 when no score is positive |
| Store.DiceGuards | model/useGameStore.ts:55-57 | the throw, hold and complete guards in terms of single dice: a die in hand and none rolling; a resting die and none in hand or rolling; a held die and a valid hold |
| Store.ProjectAddPlayer | model/useGameStore.ts:52 | the snapshot's name guard accepts exactly the non-empty names no player has |
| Store.InitialInv | model/useGameStore.ts:5-27 | the initial record satisfies the invariant (dice die-1..die-5, unique names, no negative points) and its dice have distinct ids |
| Store.StartRolling | model/useGameStore.ts:166-178 | only the dice change, and they change as the pick-up describes: ready and resting dice go into the hand, the rest stay; the invariant is kept |
| Store.StartLevel | model/useGameStore.ts:103-112 | the level goes up by one, the rolls are cleared, and all dice are in hand with face 0 and the same ids; nothing else changes |
| Store.StartPlayerTurn | model/useGameStore.ts:92-101 | points 0, level 1, in progress, no rolls, all dice in hand with face 0; the turn never passes through Ready |
| Store.CheckForVictory | model/useGameStore.ts:141-164 | only at the last index is there a winner, exactly when some score reaches 1000, and it is the lowest-index top scorer; otherwise the winner is cleared |
| Store.ResetDice | model/useGameStore.ts:263-269 | only the dice change, and the invariant is kept |
| Store.AddPlayer | model/useGameStore.ts:65-70 | the player is appended with score 0 and the rest is unchanged; names stay unique |
| Store.RemovePlayer | model/useGameStore.ts:72-77 | the players become the order-preserving removal of those with the id; nothing else changes |
| Store.StartGame | model/useGameStore.ts:79-89 | round 1, index 0, no winner, scores zeroed with names kept, and a fresh turn (points 0, level 1, in progress, all dice in hand) |
| Store.AdvancePlayer | model/useGameStore.ts:114-122 | the index becomes (i+1) mod n; the round goes up exactly when i was the last index; a fresh turn starts |
| Store.BankPoints | model/useGameStore.ts:124-139 | only the current player's score changes, by the turn's points plus the positive score of the held and resting dice; the turn becomes Complete |
| Store.BankPointsVictory | model/useGameStore.ts:138-164 | after a bank, only the last player's bank can name a winner, exactly when a new score reaches 1000, and it is the lowest-index top scorer |
| Store.SetDiceStatus | model/useGameStore.ts:181-203 | the turn busts exactly when no die is in hand or rolling and the resting dice score 0, and then the victory check runs; otherwise only the dice change |
| Store.SetDieValue | model/useGameStore.ts:205-210 | only the dice change, as the face update describes, and the invariant is kept |
| Store.ThrowDie | model/useGameStore.ts:212-222 | the first die in hand starts rolling and nothing else in the game changes |
| Store.ToggleHold | model/useGameStore.ts:226-235 | only the dice change, as the toggle describes, and the invariant is kept |
| Store.CompleteRoll | model/useGameStore.ts:237-261 | the turn's points grow by the held dice's score; players, winner, round, index and turn state are unchanged |
| Store.CompleteRollHotDice | model/useGameStore.ts:247-257 | with no resting die, the level goes up, the roll just recorded is wiped, and all five dice are back in hand with face 0 |
| Store.CompleteRollContinues | model/useGameStore.ts:250-260 | with resting dice, the roll is appended, held dice become scored, ready and resting dice go back in hand, every other die (such as those scored earlier) is unchanged, and faces are kept |
| Store.QuitGame | model/useGameStore.ts:271-283 | round, index, level and points become 0, players and rolls are emptied, dice are ready with faces kept, and winner and turn state are kept |
| Store.BustedLocksTurn | model/useGameStore.ts:54-59 | in a busted turn no die can be thrown or held, no roll completed and nothing banked; advancing is allowed exactly when there is no winner |
| Store.GuardsExclusive | model/useGameStore.ts:54-59 | throwing excludes holding and banking; when a turn can be started or advanced, no dice action is allowed |
| Store.StartGameWithoutPlayers | model/useGameStore.ts:53 | without a winner a game may be started, even with no players |
| Store.EmptyRestingBusts | model/useGameStore.ts:187-197 | a settle that leaves no die in hand, rolling or resting busts the turn |
| Store.BustLocksDice | model/useGameStore.ts:181-203 | after a bust the dice actions are locked and advancing depends only on the winner |
| Store.ToggleTwiceRestores | model/useGameStore.ts:229-232 | toggling a resting or held die twice gives back the same dice |
| Store.ToggleInHandTwice | model/useGameStore.ts:229-230 | a die in hand becomes held on the first toggle and resting on the second: the toggle does not check for a resting die |
| Session.StepInv | model/useGameStore.ts:64-283 | every action taken under its guard keeps the invariant |
| Session.RunInv | model/useGameStore.ts:64-283 | every run of enabled actions keeps the invariant |
| Session.ReachableInv | model/useGameStore.ts:9 | every game reachable from the initial record has the five dice die-1..die-5 in order, distinct ids, unique names and no negative score |
| Labels.NatToStringRoundTrip | lib/labels.ts:20 | the printed numeral of a number reads back as that number |
| Labels.IntToStringInjective | lib/labels.ts:20 | different integers print differently |
| Labels.TableLevelLabel | lib/labels.ts:16-18 | levels 0..9 get their table name |
| Labels.NumberedLevelLabel | lib/labels.ts:16-21 | a level above 9 is shown as "Level " followed by digits with no leading zero that read back as the level, so the canonical decimal numeral |
| Labels.NegativeLevelLabel | lib/labels.ts:16-21 | a negative level is shown as "Level -" followed by digits with no leading zero that read back as its magnitude |
| Labels.LevelLabelExamples | lib/labels.ts:3-21 | level 0 is "Pregame", 1 is "Zonk", 10 is "Level 10" and -1 is "Level -1" |
| Labels.LevelTableDomain | lib/labels.ts:3-14 | the table names exactly the levels 0..9 |
| Labels.TableLabelsDistinct | lib/labels.ts:3-14 | no two table levels share a name |
| Labels.LevelLabelInjective | lib/labels.ts:3-21 | different levels always get different labels |
| Labels.TurnStateLabelInjective | lib/labels.ts:23-34 | the four turn states get four different labels |

## Left out

- The React components, the physics simulation, `Math.random`, the id generator, `console.log` and the zustand `set`/`get` plumbing are not modelled. The physics callbacks `setDiceStatus` and `setDieValue` are modelled as actions with their arguments as parameters.
- The stored `permissions` field: permissions are derived on demand by `Store.Project`. Two stale snapshots of the source are therefore not represented:
  - the initial literal, which has `canStartGame` false although the derived value is true;
  - the snapshot after `setDieValue`, which does not refresh permissions.
- `updatePermissions` itself has no contract of its own: `Store.Project` only assembles the guard predicates, and the rows above state what the guards mean.
- Store.BankPoints: requires a valid current index, because the source reads `players[currentPlayerIndex].score` and would throw otherwise.
- Store.AdvancePlayer: requires at least one player, because with none the source computes a NaN index.
- Store.StartGameWithoutPlayers: the permission lets a game start with no players, as the source does. Banking in such a game would then fail on the missing player, which is why `Store.BankPoints` needs its index precondition.
- Store.ToggleHold: requires `canHoldDice`. No caller of `toggleHold` is among the modelled files, and the function itself accepts any id.
- The SPAZ status exists in the data model. Only `setDiceStatus` could set it, and no caller in the modelled code passes it, so nothing specific to it is modelled.
- Levels, scores, points and face values are unbounded integers standing in for JavaScript numbers, which are doubles: integers are exact only up to 2^53, and a template literal prints numbers from 10^21 up in exponent form ("1e+21"). No game comes near either range, so the label, score and point properties are stated for the integers.
- Face values are integers. A fractional face, which a die never reports, is not modelled.
- `completeRoll` marks dice as scored by `heldDice.includes(die)`, which is object identity. The held list is a filter of the same array, so the model marks dice by their status.
- Store.ThrowDie: the "nothing else changes" clause on the dice assumes distinct die ids. All reachable games have them (`Session.ReachableInv`). The source matches by id, so dice sharing an id would start rolling together.
- Store.Toggle: the toggled die's new status is stated only for distinct die ids, which all reachable games have (`Session.ReachableInv`); the clause that every die with another id is unchanged holds for all inputs. With a shared id, every die carrying it takes the status decided by the first of them.
