# Shut the Box: Triple Trouble — rule engine and turn state machine

A Dafny model of the core of a single-player "Shut the Box" variant. The board has 3 rows and 9 columns:

- Row 0 (front) shows 1..9.
- Row 1 (middle) shows 9..1.
- Row 2 (back) shows 1..9.

Each turn the player rolls one or two dice and shuts open tiles whose face values add up to the roll. A tile can be chosen only when the tile directly in front of it is shut or already chosen. The game is lost as soon as a roll cannot be matched, and won when every tile is shut.

The model has three modules:

- `Types` (`types.dfy`)
  - The game status, tile status, tile record and dice state.
  - A well-formedness predicate for the documented row and column ranges.
- `Utils` (`utils.dfy`) — the rule engine.
  - The availability predicate `isTileAvailable`.
  - The feasibility solver `canMakeSum`:
    1. It groups the tiles by column and sorts each column by row. The grouping and sorting are methods proved against the reference functions `ColumnTiles` and `SortByRow`.
    2. It builds each column's chain options. This loop is proved against `ChainSums`: 0, then the running sums of the open values in row order.
    3. It runs the pruned depth-first `check`, proved against the recursive function `Search`.

    The answer is characterised by `FeasibleIffChoice`: with non-negative tile values, the solver says yes exactly when some choice of one option per column sums to the target.
- `App` (`app.dfy`) — the React component's logic.
  - The fixed layout and its ids `r{row}-c{col}`.
  - The derived values `diceSum`, `selectedSum`, `isFinalRow`, `maxOpenValue` and `canRollOneDie`.
  - The handlers, as methods of a `Game` class whose fields are the component's state.
  - Every handler keeps `Game.Valid()`, the invariant `GameInvariant`:
    - the board keeps the fresh layout;
    - in every column the shut tiles form a front run;
    - one die is only in use on the final row with no open value above 6;
    - the selection is valid under the availability rule;
    - a won game is fully shut;
    - a lost game's dice sum is infeasible;
    - a select phase in play has a feasible target.
  - Every handler also states its exact new state.

The dice values are passed in as parameters instead of coming from `Math.random`.

Points about the code itself that shape the model:

- **Score.** No score is computed anywhere in the code, so the model has none.
- **Solver and availability on arbitrary tile lists.** On an arbitrary list of tiles the column-chain solver can miss a selection that availability allows. Take a column whose row-0 tile is open, row-1 tile shut and row-2 tile open. The row-2 tile is available on its own (`utils.ts:17`), but its value alone is not one of the column's options (`utils.ts:41-49`). That column never arises in play. A tile is shut only by `confirmMove`, while it is selected (`App.tsx:153-158`), and a selected tile's front tile is shut or selected (`utils.ts:17`). So in every column the shut tiles form a front run. `GameInvariant` carries this as `ShutFromFront`, and `ConfirmKeepsShutFromFront` proves that confirming keeps it. The model states the solver as written.
- **Guards in the view.** `handleTileClick` (`App.tsx:122-144`) does not check availability; only the view filters clicks (`App.tsx:195`). In the same way, the confirm and roll buttons are only shown in the matching phase (`App.tsx:321-348`), and the dice selector only when one die may be rolled (`App.tsx:297`). These view guards become preconditions of the handlers.

## Model

| member | source | states |
|---|---|---|
| Utils.FindFront | utils.ts:13 | `find` returns a tile of the board standing directly in front of the given tile, and returns nothing exactly when no tile of the board stands there |
| Utils.IsTileAvailable | utils.ts:8-21 | a shut tile is never available; an open front-row tile always is; an open tile with no tile in front of it always is |
| Utils.FindFrontUnique | utils.ts:13 | on a board with one tile per position, `find` returns that position's front tile |
| Utils.AvailableIffFront | utils.ts:9-18 | both directions: a tile with a front tile is available iff it is open and it is in row 0, or its front tile is shut, or its front tile's id is selected |
| Utils.AvailableMonotone | utils.ts:17 | selecting more ids never makes an available tile unavailable |
| Utils.ColumnTilesMembers | utils.ts:29-30 | the list for column `c` holds exactly the tiles whose column is `c` |
| Utils.ColumnTilesCounts | utils.ts:29-30 | the list for column `c` holds each column-`c` tile as many times as the board holds it, and no other tile (multiset) |
| Utils.InsertByRowPerm | utils.ts:33 | one insertion step of the sort adds the tile and keeps every other tile (multiset and membership) |
| Utils.InsertKeepsSorted | utils.ts:33 | inserting into a row-sorted column keeps it sorted |
| Utils.SortByRowPerm | utils.ts:33 | sorting a column returns a permutation of it in ascending row order |
| Utils.OpenValuesFacts | utils.ts:41-49 | a column has no more open values than tiles; with non-negative tile values none is negative; a fully shut column has none |
| Utils.GroupByColumn | utils.ts:29-30 | the `forEach`/`push` loop yields nine lists, list `c` being the board's column-`c` tiles in board order |
| Utils.SortColumns | utils.ts:33 | every column list is replaced by its sort by row |
| Utils.ChainStep | utils.ts:41-49 | one iteration: a shut tile leaves the chain sum and the options untouched, an open tile adds its value to the chain sum and appends it |
| Utils.ChainOptions | utils.ts:38-50 | a column's options are 0 followed by the running sums of its open values in order; shut tiles add nothing and do not end the chain |
| Utils.ColumnOptions | utils.ts:37-51 | the options of each column are that column's chain sums |
| Utils.Check | utils.ts:54-64 | the recursive `check` with its early return answers exactly as the pruned search `Search` |
| Utils.CanMakeSum | utils.ts:27-67 | `canMakeSum(target, tiles)` returns `Feasible(target, tiles)`: the search over the options of the tiles grouped and sorted by row |
| Utils.ChainSumsSane | utils.ts:38-49 | every column offers 0, and with non-negative values no option is negative |
| Utils.BoardOptionsSane | utils.ts:37-51 | on a board with non-negative values all nine columns offer 0 and only non-negative options |
| Utils.SearchWitness | utils.ts:54-64 | when the search succeeds there is one option per remaining column reaching the target exactly |
| Utils.SearchFinds | utils.ts:54-64 | any such choice of options makes the search succeed, despite the pruning at `currentSum > target` |
| Utils.FeasibleIffChoice | utils.ts:54-66 | both directions: with non-negative tile values `canMakeSum(t)` holds iff some choice of one option per column sums to exactly `t` |
| Utils.ZeroAlwaysFeasible | utils.ts:55-66 | `canMakeSum(0, tiles)` holds on every board |
| Utils.AllShutOptions | utils.ts:38-49 | on a fully shut board every column's options are exactly `[0]` |
| Utils.ZeroOptionsFail | utils.ts:54-64 | when every column offers only 0, the search from sum 0 never reaches a positive target |
| Utils.AllShutInfeasible | utils.ts:38-64 | on a fully shut board `canMakeSum(t)` is false for every `t > 0` |
| Utils.ColumnOptionsArePrefixSums | utils.ts:29-50 | column `c`'s options are 0 and the running sums of the open values of exactly the column-`c` tiles, sorted by row, each counted as often as the board holds it (multiset equality) |
| App.TileIdInjective | App.tsx:22 | different (row, column) positions get different ids `r{r}-c{c}` |
| App.CreateInitialTiles | App.tsx:9-31 | the nested loops build exactly the fresh board `InitialTiles()` |
| App.InitialTileAt | App.tsx:14-28 | tile `9r + c` of the fresh board is at row `r`, column `c`, open, with id `r{r}-c{c}` and value `c + 1`, or `9 - c` in row 1 |
| App.InitialBoardFacts | App.tsx:9-31 | the fresh board has 27 tiles, all open and well formed, with values 1..9, and has the board layout |
| App.SameLayoutBoard | App.tsx:153-158 | boards that differ only in statuses have the board layout together |
| App.BoardFacts | App.tsx:14-28 | every board in play has 27 tiles, tile `i` at row `i / 9` and column `i % 9`, values 1..9, distinct positions and distinct ids |
| App.BoardColumns | App.tsx:15 | every tile of a board in play lies in one of the nine columns |
| App.BoardCell | App.tsx:14-24 | tile `i` of a board in play is at row `i / 9`, column `i % 9` |
| App.BoardUniqueIds | App.tsx:22 | tile ids on a board in play are distinct |
| App.BoardAvailable | utils.ts:8-21 | on a board in play tile `i` is available iff it is open and is in row 0 or tile `i - 9` is shut or selected |
| App.DiceSum | App.tsx:44 | the turn's target is `values[0] + values[1]`; with one die the second value is 0 and the target is the first die; dice in range give a target of 1..12 |
| App.FrontOpenCount | App.tsx:52 | the count of open row-0/row-1 tiles is 0 iff no such tile is open |
| App.IsFinalRow | App.tsx:52 | `isFinalRow` iff no tile of row 0 or row 1 is open |
| App.MaxOpenValue | App.tsx:53 | at least 0 and every open value, and equal to 0 or to one of the open values, as `Math.max(0, ...)` is |
| App.CanRollOneDie | App.tsx:52-54 | one die is offered iff rows 0 and 1 are shut, no open value exceeds 6, and the status is neither won nor lost |
| App.DependentIdsMembers | App.tsx:132-137 | the dependents are exactly the ids of the selected tiles in the clicked tile's column with a larger row |
| App.FilterOutMembers | App.tsx:139 | the filter keeps exactly the selected ids not marked for removal and adds no duplicates |
| App.RemoveWithDependents | App.tsx:127-140 | after deselecting, an id is selected iff it was, is not the clicked id, and belongs to no tile behind the clicked tile; ids in other columns and lower rows stay |
| App.ShutSelected | App.tsx:153-158 | the `map` keeps every tile's id, position and value, and a tile is shut afterwards iff it was shut or its id is selected |
| App.SelectedSumSameIds | App.tsx:45-47 | `selectedSum` depends only on which tiles' ids are selected |
| App.SelectedSum | App.tsx:45-47 | an empty selection sums to 0; what the sum means is stated by `App.SelectedSumSameIds` (only which tiles are selected matters) and `App.SelectedSumAdd` (selecting one more tile adds exactly its value) |
| App.SelectedSumAdd | App.tsx:45-47 | with distinct ids, appending an unselected tile's id raises `selectedSum` by that tile's value |
| App.ShutSelectedOpenTotal | App.tsx:153-158 | shutting selected open tiles lowers the total of the open values by their sum |
| App.ShutSelectedKeepsOneDie | App.tsx:153-158 | shutting tiles keeps the final row final and does not raise the largest open value |
| App.ShutSelectedWins | App.tsx:164 | the board is fully shut after a confirm iff every tile still open was selected |
| App.FreshInvariant | App.tsx:34-39 | the initial state satisfies the game invariant |
| App.ClickKeepsInvariant | App.tsx:125-144 | deselecting with dependents, or appending an available tile, keeps the invariant; appending adds the tile's value to the selected sum |
| App.DiceCountKeepsInvariant | App.tsx:297-311 | choosing one or two dice where the selector is shown keeps the invariant |
| App.RollKeepsInvariant | App.tsx:105-118 | resolving a roll keeps the invariant: lost iff the dice sum is infeasible, else the select phase with a feasible target |
| App.ConfirmKeepsShutFromFront | App.tsx:153-158 | shutting a valid selection keeps every shut row-1/row-2 tile's front tile shut, because a selected tile's front tile is shut or selected |
| App.ConfirmKeepsInvariant | App.tsx:153-169 | a confirmed move keeps the invariant and lowers the open total by the selected sum |
| App.ValidSelectionOpenTotal | App.tsx:153-158 | a valid selection holds only open tiles, so shutting it lowers the open total by its sum |
| App.Game.constructor | App.tsx:34-39 | the initial state: fresh board, dice (1, 1), two dice, status start, phase roll, empty selection |
| App.Game.HandleReset | App.tsx:172-180 | reset restores exactly that fresh state from any state |
| App.Game.ChooseDiceCount | App.tsx:297-311 | the selector sets the dice count and nothing else |
| App.Game.HandleRoll | App.tsx:95-120 | from won or lost the roll resets; otherwise the board and the selection do not change, the second die is 0 with one die, and the game is lost iff `canMakeSum` of the dice sum fails, else the phase is select |
| App.Game.ResolveRoll | App.tsx:101-119 | the resolved roll: dice `(d1, d2 or 0)`, sum `d1 + d2`, status lost iff the sum is infeasible, else playing in the select phase |
| App.Game.HandleTileClick | App.tsx:122-145 | ignored outside a select phase in play; a selected tile is removed with its dependents; another tile is appended and its value added to the selected sum |
| App.Game.ConfirmMove | App.tsx:147-170 | a mismatched sum changes nothing; a matching one shuts exactly the selected tiles, clears the selection, lowers the open total by the dice sum, and ends won iff all tiles are shut, with the phase left at select, else playing in the roll phase |
| App.SelectKeepsSelectionValid | App.tsx:143 | appending an available tile keeps the selection free of duplicates, on the board and available |
| App.DeselectKeepsAvailable | App.tsx:127-140 | a selected tile that survives a deselection is still available |
| App.FrontSurvives | App.tsx:131-139 | the front tile of a tile that survives a deselection survives it too |
| App.FrontCell | utils.ts:13 | on a board in play tile `i - 9` is in tile `i`'s column, nearer the front |
| App.FrontNotBehind | App.tsx:132-135 | with distinct ids, the tile in front of a tile not behind the clicked one is neither the clicked tile nor behind it |
| App.DeselectKeepsSelectionValid | App.tsx:127-140 | removing a tile with its dependents keeps the selection valid |

## Left out

- Rendering is not modelled. This covers the JSX, `Dice.tsx` and `Tile.tsx`, the instructions modal, the messages and colours, and the confetti effect: these are presentation.
- `rollDie` is not modelled, because it uses `Math.random`. The dice values are parameters of `HandleRoll` in 1..6.
- The `setTimeout` delay and the `rolling` flag's window (`App.tsx:101-119`) are not modelled. The roll is one atomic step, so `rolling` is always false between handlers. The `diceCount` read inside the timeout is the value at the time of the click, which the atomic step also uses. The dice selector stays shown during that window (`App.tsx:297` checks only the phase), so in the code `diceCount` can change after the roll has read it; the atomic `HandleRoll` cannot show that interleaving.
- The `useEffect` that resets `diceCount` to 2 (`App.tsx:57-61`) is not modelled, because it is reactive glue. The invariant keeps its purpose: one die is only in use on the final row with no open value above 6. After a loss the model may keep `diceCount` at 1, where the effect would reset it to 2; the next roll resets the whole game anyway. After a win the phase stays select, so the effect does not run and the code also keeps `diceCount`.
- A row-weighted score is not modelled, because the code computes no score.
- The view guards are preconditions rather than modelled view code:
  - clicks only on available tiles of the board;
  - confirm only in a select phase in play;
  - roll otherwise;
  - the dice selector only when one die may be rolled.
- The array sort `col.sort((a, b) => a.row - b.row)` is a library call. It is modelled as a stable insertion sort by row, as a function on values, and `SortColumns` replaces each column by its sorted copy.
- The model does not state that the solver is sound with respect to availability, i.e. that every option sum can be built up by available clicks. It also does not state that the solver is complete with respect to availability. On arbitrary tile lists it is not (see above). The model does not prove completeness on the boards reached in play either, beyond the invariant `ShutFromFront` that excludes the counterexample.
- Utils.CanMakeSum: its requires that every tile's column is 0..8 stands for the `TypeError` that `columns[t.col].push` throws at `utils.ts:30` for any other column. The error path is not modelled, and every board the game builds meets the requires (`App.BoardColumns`).
- Utils.IsTileAvailable: the default `selectedTileIds = []` of `utils.ts:8` is not modelled; the selection is always passed, as the only call site (`App.tsx:195`) does.
- Tile ids are the strings `r{r}-c{c}`. They are modelled for one-digit rows and columns only, which is every id the board creates.
- App.Game.HandleRoll: the handler also sets the status to playing before the timeout. That intermediate state is not observable in the atomic step. The roll itself is split across `HandleRoll` and `ResolveRoll`.
