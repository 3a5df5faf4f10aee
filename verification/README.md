# Continuum rule logic in Dafny

A model of the parts of the Continuum card-game server whose rule logic has a
body: the paradox ("set") detector and the action dispatch of the game
service, the movement generator of the action service, and the seeder that
builds the catalog of sixteen card types. Cards, card types, players and
action payloads are immutable datatypes; the operations are pure functions,
except the movement generator, which is a method over an array because it
reverses the caller's continuum in place.

Modules, leaves first:

- `Seqs` (`seqs.dfy`): filtering, counting and reversing sequences, with the
  facts the rules rely on (counts are permutation-invariant, filtering keeps
  order and multiplicity).
- `Cards` (`cards.dfy`): colours, suits, card types, cards, players,
  orientations, action types and payloads, game snapshots.
- `GameService` (`game_service.dfy`): `hasSet` as a loop over one tally map
  with colour, suit and value keys, proved equal to "some counter is exactly
  3"; `performAction` as a first-match switch over its case labels.
- `ActionService` (`action_service.dfy`): `getValidDestination` and
  `getMovement`, including JavaScript's `slice` clamping of the position.
- `Catalog` (`catalog.dfy`): `generateCardType`, the nested colour/suit loop
  of `generateCardTypes`, and its stable sort by value.

Two behaviours of the code differ from what the game's rules would suggest;
the model follows the code:

- The movement generator reverses the caller's array for a `Top` player
  instead of working on a reversed copy. `ActionService.GetMovement` states
  the mutation, and `ActionService.RepeatedTopCallSeesStoredOrder` shows its
  consequence: a second call on the same array walks it in stored order.
- The set detector asks for a counter of exactly 3, not at least 3: a fourth
  matching card hides the paradox (`GameService.FourthCardOverflowsTally`,
  `GameService.FourOfAColorIsNotASet`).

## Model

| member | source | states |
|---|---|---|
| GameService.HasSet | src/services/game.service.ts:41-69 | the detector answers true exactly when some colour, suit or value is counted exactly three times among the cards not of the codex colour |
| GameService.CodexCardsIgnored | src/services/game.service.ts:44-47 | removing the codex-coloured cards changes no counter, so the answer is the same with or without them |
| GameService.OrderIndependent | src/services/game.service.ts:44-66 | two hands holding the same cards in any order have equal counters and the same answer |
| GameService.ThreeMatchingCardsFormSet | src/services/game.service.test.ts:36-103 | three cards sharing a colour, a suit or a value, none of the codex colour, form a paradox |
| GameService.FewCountedCardsNoSet | src/services/game.service.test.ts:105-181 | a hand with fewer than three cards outside the codex colour (three codex-coloured cards, or three matching cards one of which is codex-coloured) holds no paradox |
| GameService.FourthCardOverflowsTally | src/services/game.service.ts:49-68 | a fourth contributing card moves a counter of 3 to 4, where it no longer satisfies the exactly-three test |
| GameService.FourOfAColorIsNotASet | src/services/game.service.ts:68 | four red cards of distinct suits and values with a blue codex give false |
| GameService.TallyOfFourReds | src/services/game.service.ts:44-66 | in that hand the red counter is 4, each suit counter is 1 and each value counter for 1 to 4 is 1 |
| GameService.Increment | src/services/game.service.ts:49-53 | a counter is created at 1 when absent and raised by one otherwise; every other counter is unchanged |
| GameService.AddCardKey | src/services/game.service.ts:49-65 | adding a card raises exactly the counters of its colour, suit and value, by one each |
| GameService.Switch | src/services/game.service.ts:15-25 | the first case whose label equals the tag runs; no case runs when no label matches |
| GameService.PerformAction | src/services/game.service.ts:12-27 | as written: the move handler runs exactly for a move payload, no handler runs for deploy or replace, and the result is always null |
| GameService.PerformActionIntended | src/services/game.service.ts:12-27 | with the labels corrected, each action type reaches its own handler and only it |
| GameService.WrittenDispatchDropsDeployAndReplace | src/services/game.service.ts:19-24 | the deploy and replace handlers are never entered, and every non-move payload is dispatched differently from the corrected switch |
| ActionService.SliceIndex | src/services/action.service.ts:15-16 | the cut point lies within the continuum and equals the position whenever the position is within it |
| ActionService.Oriented | src/services/action.service.ts:11-13 | a bottom player sees the continuum unchanged; a top player sees it element by element reversed |
| ActionService.Split | src/services/action.service.ts:15-16 | past followed by future is the whole continuum, and the past holds exactly `position` cards when the position is in range |
| ActionService.ValidDestinations | src/services/action.service.ts:25-39 | a card is a destination exactly when it is a past card sharing the hand card's suit or colour, or the future card at offset value; at most one card beyond the past is added |
| ActionService.ValidDestinationsOrder | src/services/action.service.ts:28-36 | the past destinations keep continuum order and the multiplicity of each matching past card, and the jump target comes last |
| ActionService.OwnPositionNeverJumpTarget | src/services/action.service.ts:34-35 | with a value of at least 1, the card at the player's own position (first of the future) is not a destination unless it also lies elsewhere |
| ActionService.Destinations | src/services/action.service.ts:18-20 | an empty hand yields no destinations, and every destination is a past or future card |
| ActionService.DestinationsMembership | src/services/action.service.ts:18-20 | a card is in the movement list exactly when some hand card opens it |
| ActionService.DestinationsConcat | src/services/action.service.ts:18-20 | the movement of a hand split in two is the movement of each part, concatenated in hand order |
| ActionService.DestinationsLength | src/services/action.service.ts:18-38 | each hand card contributes at most one destination per past card plus one jump |
| ActionService.Movement | src/services/action.service.ts:3-39 | every returned destination is a card of the continuum passed in |
| ActionService.MovementLength | src/services/action.service.ts:3-39 | a hand of h cards yields at most h times one more than the continuum's length destinations |
| ActionService.ReverseInPlace | src/services/action.service.ts:12 | the array afterwards holds its former contents in reverse order |
| ActionService.GetMovement | src/services/action.service.ts:3-23 | the caller's array is reversed for a top player and untouched for a bottom one, and the result is the concatenation over the hand of each card's destinations in the oriented continuum |
| ActionService.RepeatedTopCallSeesStoredOrder | src/services/action.service.ts:11-16 | running the generator for a top player on an array it already reversed gives the moves of a bottom player on the original order |
| Catalog.GenerateCardType | database/helpers.js:42-52 | the record holds exactly the given colour, suit and value |
| Catalog.LatinValueIsModular | database/helpers.js:17-27 | the value at colour index i and suit index j is ((i + j) mod 4) + 1, so it lies in 1 to 4 |
| Catalog.GenerateGrid | database/helpers.js:17-37 | the nested loops produce, colour by colour and suit by suit, the entry of the Latin square at each index pair |
| Catalog.InsertByValue | database/helpers.js:39 | inserting into a value-ordered list keeps it ordered and adds exactly the one card type |
| Catalog.SortByValue | database/helpers.js:39 | the sort result is ordered by value and is a permutation of its input |
| Catalog.SortIsStable | database/helpers.js:39 | the types of any one value come out in the order they went in |
| Catalog.StableSortIsUnique | database/helpers.js:39 | any two value-ordered lists that agree on the order within each value are equal, so the stable sort's output is determined |
| Catalog.SortCardTypes | database/helpers.js:39 | the sort returns a value-ordered permutation of its input that keeps equal values in input order |
| Catalog.GenerateCardTypes | database/helpers.js:2-40 | sixteen types ordered by value; each type carries the Latin-square value of its colour and suit; each colour and suit pair occurs once; four types of each value, colour and suit; values in 1 to 4, distinct within each colour and within each suit; and the four types of each value in colour order red, green, purple, blue, as the stable sort of the colour-by-colour grid leaves them |
| Catalog.GridFilter | database/helpers.js:20-39 | the grid lists the types of each value one per colour, in colour order, which is the order the stable sort keeps |
| Catalog.GridValueCount | database/helpers.js:20-37 | each value 1 to 4 appears four times in the grid |
| Catalog.GridPairCount | database/helpers.js:20-33 | each colour and suit pair labels exactly one grid entry |

## Left out

- `create`, `handleMove`, `handleDeploy` and `handleReplace` have empty bodies; the model records only which handler a payload reaches.
- Dealing, combat, codex advance, scoring and victory: their implementation is not part of this model, so no behaviour is modelled for them.
- The user service, controllers, socket events and the database layer: hashing, HTTP routing, broadcasts and persistence are foreign calls.
- Card lookups by the database (`card.type` is carried inline as `cardType`).
- ActionService.SliceIndex: a `null` or non-integer position (JavaScript treats `null` as 0 and truncates fractions) is not modelled; positions are integers.
- ActionService.ValidDestinations: a non-integer card value (an undefined array entry in JavaScript, hence no jump) is not modelled; values are integers.
- GameService.HasSet: the tally is an object whose keys are colour names, suit names and the value's decimal string; these never collide, so a tagged key stands for them, and integer values stand for the decimal strings.

## Findings

| source | as written | input that shows it | evidently intended | confidence | as-written member | corrected member |
|---|---|---|---|---|---|---|
| src/services/game.service.ts:19-24 | all three `case` labels of the action switch are `MOVE`, so the second and third cases can never run | a payload of type `DEPLOY` (or `REPLACE`) runs no handler | `DEPLOY` runs `handleDeploy` and `REPLACE` runs `handleReplace` | high, not executed | GameService.PerformAction, GameService.WrittenDispatchDropsDeployAndReplace | GameService.PerformActionIntended |
