/**
 * The turn state machine (App.tsx): the fixed board layout, the values derived
 * from the state, and the handlers as methods of a `Game` object.
 */
module App {
  import opened Types
  import opened Utils

  /** Whether the player is about to roll or is choosing tiles. */
  datatype TurnPhase = Roll | Select

  // ---------------------------------------------------------------------------
  // The board layout (App.tsx:9-31)
  // ---------------------------------------------------------------------------

  /** Decimal rendering of a one-digit number, as template strings print it. */
  function Digit(n: int): char
    requires 0 <= n <= 9
  {
    ('0' as int + n) as char
  }

  /** The id `r{row}-c{col}` of the tile at a position of the 3-by-9 board. */
  function TileId(r: int, c: int): string
    requires 0 <= r <= 9 && 0 <= c <= 9
  {
    "r" + [Digit(r)] + "-c" + [Digit(c)]
  }

  /** Different positions get different ids. */
  lemma TileIdInjective(r1: int, c1: int, r2: int, c2: int)
    requires 0 <= r1 <= 9 && 0 <= c1 <= 9 && 0 <= r2 <= 9 && 0 <= c2 <= 9
    ensures TileId(r1, c1) == TileId(r2, c2) ==> r1 == r2 && c1 == c2
  {
    if TileId(r1, c1) == TileId(r2, c2) {
      assert TileId(r1, c1)[1] == TileId(r2, c2)[1];
      assert TileId(r1, c1)[4] == TileId(r2, c2)[4];
    }
  }

  /** The fresh tile at row `r`, column `c`: open, face value c+1 except 9-c in the middle row. */
  function MakeTile(r: int, c: int): TileData
    requires 0 <= r < Rows && 0 <= c < Columns
  {
    TileData(TileId(r, c), r, c, if r == 1 then 9 - c else c + 1, Open)
  }

  /** The fresh board, row by row from the front: tile `9 * r + c` sits at (r, c). */
  function InitialTiles(): (tiles: seq<TileData>)
    ensures |tiles| == Rows * Columns
  {
    seq(Rows * Columns, i requires 0 <= i < Rows * Columns => MakeTile(i / Columns, i % Columns))
  }

  /** `createInitialTiles()`: two nested loops pushing one tile per (row, column). */
  method CreateInitialTiles() returns (tiles: seq<TileData>)
    ensures tiles == InitialTiles()
  {
    tiles := [];
    for r := 0 to Rows
      invariant |tiles| == Columns * r
      invariant forall i :: 0 <= i < |tiles| ==> tiles[i] == MakeTile(i / Columns, i % Columns)
    {
      for c := 0 to Columns
        invariant |tiles| == Columns * r + c
        invariant forall i :: 0 <= i < |tiles| ==> tiles[i] == MakeTile(i / Columns, i % Columns)
      {
        var val := c + 1;
        if r == 1 {
          val := 9 - c;
        }
        assert (Columns * r + c) / Columns == r && (Columns * r + c) % Columns == c;
        tiles := tiles + [TileData(TileId(r, c), r, c, val, Open)];
      }
    }
  }

  /** The tile at (r, c) of the fresh board: open, with its id and face value. */
  lemma InitialTileAt(r: int, c: int)
    requires 0 <= r < Rows && 0 <= c < Columns
    ensures var t := InitialTiles()[Columns * r + c];
            t.row == r && t.col == c && t.id == TileId(r, c) && t.status == Open &&
            t.value == (if r == 1 then 9 - c else c + 1)
  {
    assert (Columns * r + c) / Columns == r && (Columns * r + c) % Columns == c;
  }

  /** Two tiles with the same layout data: only the status may differ. */
  predicate SameLayout(a: seq<TileData>, b: seq<TileData>) {
    |a| == |b| &&
    forall i :: 0 <= i < |a| ==>
      a[i].id == b[i].id && a[i].row == b[i].row && a[i].col == b[i].col && a[i].value == b[i].value
  }

  /** No two tiles of a board share an id. */
  predicate UniqueIds(tiles: seq<TileData>) {
    forall i, j :: 0 <= i < j < |tiles| ==> tiles[i].id != tiles[j].id
  }

  /**
   * A board in play: the fresh layout with some tiles shut, that is, tile `i`
   * is the fresh tile at (i / 9, i % 9) up to its status.
   */
  ghost predicate IsBoard(tiles: seq<TileData>) {
    |tiles| == Rows * Columns &&
    forall i :: 0 <= i < |tiles| ==> tiles[i].(status := Open) == MakeTile(i / Columns, i % Columns)
  }

  /**
   * The fresh board is a board in play with all 27 tiles open, one at each
   * (row, column), with face values 1 to 9.
   */
  lemma InitialBoardFacts()
    ensures IsBoard(InitialTiles())
    ensures |InitialTiles()| == 27
    ensures forall t :: t in InitialTiles() ==> t.status == Open && WellFormedTile(t) && 1 <= t.value <= 9
  {
  }

  /** Two boards with the same layout are boards in play together. */
  lemma SameLayoutBoard(a: seq<TileData>, b: seq<TileData>)
    requires SameLayout(a, b)
    ensures IsBoard(a) <==> IsBoard(b)
  {
    forall i | 0 <= i < |a| ensures a[i].(status := Open) == b[i].(status := Open) {
    }
  }

  /** What every board in play shares with the fresh board. */
  lemma BoardFacts(tiles: seq<TileData>)
    requires IsBoard(tiles)
    ensures |tiles| == 27
    ensures forall i :: 0 <= i < |tiles| ==> tiles[i].row == i / Columns && tiles[i].col == i % Columns
    ensures forall t :: t in tiles ==> WellFormedTile(t) && 1 <= t.value <= 9
    ensures NonNegativeValues(tiles)
    ensures UniquePositions(tiles) && UniqueIds(tiles)
  {
    forall i | 0 <= i < |tiles|
      ensures tiles[i].row == i / Columns && tiles[i].col == i % Columns
      ensures tiles[i].id == TileId(i / Columns, i % Columns)
      ensures 1 <= tiles[i].value <= 9
    {
      assert tiles[i].(status := Open) == MakeTile(i / Columns, i % Columns);
    }
    forall i, j | 0 <= i < j < |tiles|
      ensures tiles[i].row != tiles[j].row || tiles[i].col != tiles[j].col
      ensures tiles[i].id != tiles[j].id
    {
      TileIdInjective(i / Columns, i % Columns, j / Columns, j % Columns);
    }
  }

  /** Every tile of a board in play lies in one of the nine columns. */
  lemma BoardColumns(tiles: seq<TileData>)
    requires IsBoard(tiles)
    ensures forall t :: t in tiles ==> 0 <= t.col < Columns
  {
    BoardFacts(tiles);
  }

  /** On a board in play tile `i` sits at row `i / 9`, column `i % 9`. */
  lemma BoardCell(tiles: seq<TileData>, i: int)
    requires IsBoard(tiles) && 0 <= i < |tiles|
    ensures tiles[i].row == i / Columns && tiles[i].col == i % Columns
  {
    assert tiles[i].(status := Open) == MakeTile(i / Columns, i % Columns);
  }

  /** Tile ids on a board in play are distinct. */
  lemma BoardUniqueIds(tiles: seq<TileData>)
    requires IsBoard(tiles)
    ensures UniqueIds(tiles)
  {
    BoardFacts(tiles);
  }

  /**
   * On a board in play the front tile of tile `i` (row 1 or 2) is tile `i - 9`,
   * so availability reads: open, and in the front row or with tile `i - 9` shut
   * or selected.
   */
  lemma BoardAvailable(tiles: seq<TileData>, selected: seq<string>, i: int)
    requires IsBoard(tiles) && 0 <= i < |tiles|
    ensures IsTileAvailable(tiles[i], tiles, selected) <==>
            tiles[i].status == Open &&
            (i < Columns || tiles[i - Columns].status == Shut || tiles[i - Columns].id in selected)
  {
    BoardFacts(tiles);
    if i >= Columns {
      AvailableIffFront(tiles[i], tiles, selected, tiles[i - Columns]);
    }
  }

  // ---------------------------------------------------------------------------
  // Derived values (App.tsx:44-54)
  // ---------------------------------------------------------------------------

  /** `diceSum`: the target of the turn. */
  function DiceSum(dice: DiceState): (s: int)
    ensures dice.values.1 == 0 ==> s == dice.values.0
    ensures 1 <= dice.values.0 <= 6 && 0 <= dice.values.1 <= 6 ==> 1 <= s <= 12
  {
    dice.values.0 + dice.values.1
  }

  /** `selectedSum`: the values of the tiles whose id is selected, added in board order. */
  function SelectedSum(tiles: seq<TileData>, selectedTileIds: seq<string>): (r: int)
    ensures |selectedTileIds| == 0 ==> r == 0
  {
    if |tiles| == 0 then 0
    else
      var last := tiles[|tiles| - 1];
      SelectedSum(tiles[..|tiles| - 1], selectedTileIds) + (if last.id in selectedTileIds then last.value else 0)
  }

  /** Sum of the values of the open tiles. */
  function OpenTotal(tiles: seq<TileData>): int {
    if |tiles| == 0 then 0
    else
      var last := tiles[|tiles| - 1];
      OpenTotal(tiles[..|tiles| - 1]) + (if last.status == Open then last.value else 0)
  }

  /** The number of open tiles in the front or middle row. */
  function FrontOpenCount(tiles: seq<TileData>): (n: nat)
    ensures n == 0 <==> forall t :: t in tiles && (t.row == 0 || t.row == 1) ==> t.status == Shut
  {
    if |tiles| == 0 then 0
    else
      assert tiles == [tiles[0]] + tiles[1..];
      (if (tiles[0].row == 0 || tiles[0].row == 1) && tiles[0].status == Open then 1 else 0)
        + FrontOpenCount(tiles[1..])
  }

  /** `isFinalRow`: no tile of the front or middle row is open any more. */
  function IsFinalRow(tiles: seq<TileData>): (r: bool)
    ensures r <==> forall t :: t in tiles && (t.row == 0 || t.row == 1) ==> t.status == Shut
  {
    FrontOpenCount(tiles) == 0
  }

  /** `maxOpenValue`: the largest open face value, 0 when nothing is open. */
  function MaxOpenValue(tiles: seq<TileData>): (m: int)
    ensures m >= 0
    ensures forall t :: t in tiles && t.status == Open ==> t.value <= m
    ensures m == 0 || exists t :: t in tiles && t.status == Open && t.value == m
  {
    if |tiles| == 0 then 0
    else
      assert tiles == [tiles[0]] + tiles[1..];
      var rest := MaxOpenValue(tiles[1..]);
      if tiles[0].status == Open && tiles[0].value > rest then tiles[0].value else rest
  }

  /**
   * `canRollOneDie`: offered exactly when the front and middle rows are shut,
   * no open tile shows more than 6, and the game is not over.
   */
  function CanRollOneDie(tiles: seq<TileData>, status: GameStatus): (r: bool)
    ensures r <==>
      (forall t :: t in tiles && (t.row == 0 || t.row == 1) ==> t.status == Shut) &&
      (forall t :: t in tiles && t.status == Open ==> t.value <= 6) &&
      status != Won && status != Lost
  {
    IsFinalRow(tiles) && MaxOpenValue(tiles) <= 6 && status != Won && status != Lost
  }

  /** Every tile of the board is shut: the win condition. */
  predicate AllShut(tiles: seq<TileData>) {
    forall t :: t in tiles ==> t.status == Shut
  }

  // ---------------------------------------------------------------------------
  // Pure pieces of the handlers
  // ---------------------------------------------------------------------------

  /** `t` is in the column of `clicked`, further back. */
  predicate IsBehind(t: TileData, clicked: TileData) {
    t.col == clicked.col && t.row > clicked.row
  }

  /** `tiles.filter(...)` of the dependents: selected tiles behind `clicked`, their ids in board order. */
  function DependentIds(tiles: seq<TileData>, clicked: TileData, prev: seq<string>): seq<string> {
    if |tiles| == 0 then []
    else
      (if IsBehind(tiles[0], clicked) && tiles[0].id in prev then [tiles[0].id] else [])
        + DependentIds(tiles[1..], clicked, prev)
  }

  /** The dependents are the ids of the selected tiles behind `clicked`. */
  lemma {:induction false} DependentIdsMembers(tiles: seq<TileData>, clicked: TileData, prev: seq<string>)
    ensures forall id :: id in DependentIds(tiles, clicked, prev) <==>
              exists t :: t in tiles && IsBehind(t, clicked) && t.id in prev && t.id == id
    decreases |tiles|
  {
    if |tiles| > 0 {
      assert tiles == [tiles[0]] + tiles[1..];
      DependentIdsMembers(tiles[1..], clicked, prev);
    }
  }

  /** No id occurs twice. */
  predicate NoDuplicates(s: seq<string>) {
    forall i, j :: 0 <= i < j < |s| ==> s[i] != s[j]
  }

  /** `prev.filter(id => !remove.includes(id))`. */
  function FilterOut(prev: seq<string>, remove: seq<string>): seq<string> {
    if |prev| == 0 then []
    else (if prev[0] in remove then [] else [prev[0]]) + FilterOut(prev[1..], remove)
  }

  /** The filter keeps exactly the ids not to remove, and no id twice if there was none. */
  lemma {:induction false} FilterOutMembers(prev: seq<string>, remove: seq<string>)
    ensures forall id :: id in FilterOut(prev, remove) <==> id in prev && id !in remove
    ensures NoDuplicates(prev) ==> NoDuplicates(FilterOut(prev, remove))
    decreases |prev|
  {
    if |prev| > 0 {
      assert prev == [prev[0]] + prev[1..];
      FilterOutMembers(prev[1..], remove);
    }
  }

  /**
   * The selection after clicking an already selected tile: it loses the clicked
   * id and the id of every selected tile behind it in the same column, and
   * keeps every other id.
   */
  function RemoveWithDependents(tiles: seq<TileData>, clicked: TileData, prev: seq<string>): (r: seq<string>)
    ensures forall id :: id in r <==>
              id in prev && id != clicked.id && forall t :: t in tiles && t.id == id ==> !IsBehind(t, clicked)
    ensures NoDuplicates(prev) ==> NoDuplicates(r)
  {
    DependentIdsMembers(tiles, clicked, prev);
    FilterOutMembers(prev, [clicked.id] + DependentIds(tiles, clicked, prev));
    FilterOut(prev, [clicked.id] + DependentIds(tiles, clicked, prev))
  }

  /** The board after a confirmed move: the selected tiles shut, everything else as it was. */
  function ShutSelected(tiles: seq<TileData>, selectedTileIds: seq<string>): (r: seq<TileData>)
    ensures SameLayout(r, tiles)
    ensures forall i :: 0 <= i < |r| ==>
              (r[i].status == Shut <==> tiles[i].status == Shut || tiles[i].id in selectedTileIds)
  {
    seq(|tiles|, i requires 0 <= i < |tiles| =>
      if tiles[i].id in selectedTileIds then tiles[i].(status := Shut) else tiles[i])
  }

  /** The ids of a board's tiles, in board order. */
  function TileIds(tiles: seq<TileData>): seq<string> {
    seq(|tiles|, i requires 0 <= i < |tiles| => tiles[i].id)
  }

  /**
   * A selection as the click handler keeps it: no id twice, only ids of the
   * board, and every selected tile available given the selection itself (so
   * the tile in front of a selected tile is shut or selected too).
   */
  ghost predicate SelectionValid(tiles: seq<TileData>, selectedTileIds: seq<string>) {
    NoDuplicates(selectedTileIds) &&
    (forall id :: id in selectedTileIds ==> id in TileIds(tiles)) &&
    (forall i :: 0 <= i < |tiles| && tiles[i].id in selectedTileIds ==>
       IsTileAvailable(tiles[i], tiles, selectedTileIds))
  }

  // ---------------------------------------------------------------------------
  // Properties of the derived values
  // ---------------------------------------------------------------------------

  /** Only which tiles' ids are selected matters, not the order or repetition of the ids. */
  lemma {:induction false} SelectedSumSameIds(tiles: seq<TileData>, a: seq<string>, b: seq<string>)
    requires forall t :: t in tiles ==> (t.id in a <==> t.id in b)
    ensures SelectedSum(tiles, a) == SelectedSum(tiles, b)
    decreases |tiles|
  {
    if |tiles| > 0 {
      assert tiles[|tiles| - 1] in tiles;
      SelectedSumSameIds(tiles[..|tiles| - 1], a, b);
    }
  }

  /** Selecting one more tile (ids unique on the board) adds exactly its value. */
  lemma {:induction false} SelectedSumAdd(tiles: seq<TileData>, selectedTileIds: seq<string>, j: int)
    requires UniqueIds(tiles) && 0 <= j < |tiles|
    requires tiles[j].id !in selectedTileIds
    ensures SelectedSum(tiles, selectedTileIds + [tiles[j].id]) == SelectedSum(tiles, selectedTileIds) + tiles[j].value
    decreases |tiles|
  {
    var n := |tiles|;
    var init := tiles[..n - 1];
    var added := selectedTileIds + [tiles[j].id];
    assert UniqueIds(init);
    if j == n - 1 {
      SelectedSumSameIds(init, added, selectedTileIds);
    } else {
      SelectedSumAdd(init, selectedTileIds, j);
      assert tiles[n - 1].id != tiles[j].id;
    }
  }

  /**
   * Confirming a selection of open tiles lowers the total of the open values by
   * exactly the selection's sum.
   */
  lemma {:induction false} ShutSelectedOpenTotal(tiles: seq<TileData>, selectedTileIds: seq<string>)
    requires forall i :: 0 <= i < |tiles| && tiles[i].id in selectedTileIds ==> tiles[i].status == Open
    ensures OpenTotal(ShutSelected(tiles, selectedTileIds)) == OpenTotal(tiles) - SelectedSum(tiles, selectedTileIds)
    decreases |tiles|
  {
    if |tiles| > 0 {
      var n := |tiles|;
      assert ShutSelected(tiles, selectedTileIds)[..n - 1] == ShutSelected(tiles[..n - 1], selectedTileIds);
      ShutSelectedOpenTotal(tiles[..n - 1], selectedTileIds);
    }
  }

  /**
   * Shutting tiles keeps the one-die condition on the board: the final row
   * stays the final row and the largest open value does not grow.
   */
  lemma ShutSelectedKeepsOneDie(tiles: seq<TileData>, selectedTileIds: seq<string>)
    ensures IsFinalRow(tiles) ==> IsFinalRow(ShutSelected(tiles, selectedTileIds))
    ensures MaxOpenValue(ShutSelected(tiles, selectedTileIds)) <= MaxOpenValue(tiles)
  {
    var after := ShutSelected(tiles, selectedTileIds);
    forall t | t in after && t.status == Open ensures t in tiles {
      var i :| 0 <= i < |after| && after[i] == t;
      assert after[i] == tiles[i];
    }
  }

  /** A confirmed move wins iff the selection covers every tile still open. */
  lemma ShutSelectedWins(tiles: seq<TileData>, selectedTileIds: seq<string>)
    ensures AllShut(ShutSelected(tiles, selectedTileIds)) <==>
            forall i :: 0 <= i < |tiles| && tiles[i].status == Open ==> tiles[i].id in selectedTileIds
  {
    var after := ShutSelected(tiles, selectedTileIds);
    if forall i :: 0 <= i < |tiles| && tiles[i].status == Open ==> tiles[i].id in selectedTileIds {
      forall t | t in after ensures t.status == Shut {
        var i :| 0 <= i < |after| && after[i] == t;
      }
    }
    if AllShut(after) {
      forall i | 0 <= i < |tiles| && tiles[i].status == Open ensures tiles[i].id in selectedTileIds {
        assert after[i] in after;
      }
    }
  }

  // ---------------------------------------------------------------------------
  // The game (App.tsx:33-180)
  // ---------------------------------------------------------------------------

  /**
   * In every column the shut tiles form a front run: a shut tile in row 1 or 2
   * has its front tile shut too.
   */
  ghost predicate ShutFromFront(tiles: seq<TileData>) {
    forall i :: Columns <= i < |tiles| && tiles[i].status == Shut ==> tiles[i - Columns].status == Shut
  }

  /**
   * Confirming a valid selection keeps the shut tiles a front run: a selected
   * tile's front tile is shut or selected, and is shut afterwards either way.
   */
  lemma ConfirmKeepsShutFromFront(tiles: seq<TileData>, sel: seq<string>)
    requires IsBoard(tiles) && SelectionValid(tiles, sel) && ShutFromFront(tiles)
    ensures ShutFromFront(ShutSelected(tiles, sel))
  {
    var after := ShutSelected(tiles, sel);
    forall i | Columns <= i < |after| && after[i].status == Shut
      ensures after[i - Columns].status == Shut
    {
      if tiles[i].status == Open {
        BoardAvailable(tiles, sel, i);
      }
    }
  }

  /**
   * The state the handlers keep: the board has the fresh layout and its shut
   * tiles form a front run in every column; one die is
   * chosen only on the final row with no open value above 6; the selection
   * is valid, and empty outside the select phase and after the game ended;
   * a new game has no tile shut; a won game has every tile shut; a lost
   * game's target is out of reach, and the target of a select phase in play
   * is within reach.
   */
  ghost predicate GameInvariant(tiles: seq<TileData>, dice: DiceState, diceCount: int, status: GameStatus,
                                turnPhase: TurnPhase, selectedTileIds: seq<string>)
  {
    IsBoard(tiles) && ShutFromFront(tiles) &&
    (diceCount == 1 || diceCount == 2) &&
    (diceCount == 1 ==> IsFinalRow(tiles) && MaxOpenValue(tiles) <= 6) &&
    !dice.rolling && 1 <= dice.values.0 <= 6 && 0 <= dice.values.1 <= 6 &&
    SelectionValid(tiles, selectedTileIds) &&
    (turnPhase == Roll || status == Won || status == Lost ==> selectedTileIds == []) &&
    (status == Start ==> (forall t :: t in tiles ==> t.status == Open) && turnPhase == Roll) &&
    (status == Won ==> AllShut(tiles)) &&
    (status == Lost ==> !Feasible(DiceSum(dice), tiles)) &&
    (status == Playing && turnPhase == Select ==> Feasible(DiceSum(dice), tiles))
  }

  /** A fresh game satisfies the invariant. */
  lemma FreshInvariant()
    ensures GameInvariant(InitialTiles(), DiceState((1, 1), false), 2, Start, Roll, [])
  {
    InitialBoardFacts();
  }

  /**
   * A click on a tile of the board inside a select phase in play: removing a
   * selected tile with its dependents, or appending an available one, keeps
   * the invariant, and appending adds the tile's value to the selected sum.
   */
  lemma ClickKeepsInvariant(tiles: seq<TileData>, dice: DiceState, diceCount: int, status: GameStatus,
                            prev: seq<string>, clicked: TileData, sel: seq<string>)
    requires GameInvariant(tiles, dice, diceCount, status, Select, prev)
    requires status == Playing && clicked in tiles
    requires clicked.id !in prev ==> IsTileAvailable(clicked, tiles, prev)
    requires sel == if clicked.id in prev then RemoveWithDependents(tiles, clicked, prev) else prev + [clicked.id]
    ensures GameInvariant(tiles, dice, diceCount, status, Select, sel)
    ensures clicked.id !in prev ==> SelectedSum(tiles, sel) == SelectedSum(tiles, prev) + clicked.value
  {
    var j :| 0 <= j < |tiles| && tiles[j] == clicked;
    if clicked.id in prev {
      DeselectKeepsSelectionValid(tiles, prev, j);
    } else {
      SelectKeepsSelectionValid(tiles, prev, j);
      BoardUniqueIds(tiles);
      SelectedSumAdd(tiles, prev, j);
    }
  }

  /** Choosing the number of dice where the selector is shown keeps the invariant. */
  lemma DiceCountKeepsInvariant(tiles: seq<TileData>, dice: DiceState, diceCount: int, status: GameStatus,
                                sel: seq<string>, n: int)
    requires GameInvariant(tiles, dice, diceCount, status, Roll, sel)
    requires n == 1 || n == 2
    requires CanRollOneDie(tiles, status)
    ensures GameInvariant(tiles, dice, n, status, Roll, sel)
  {
  }

  /**
   * Resolving a roll from the roll phase keeps the invariant: the game is in
   * play, lost iff the new dice sum is out of reach, otherwise in its select
   * phase.
   */
  lemma RollKeepsInvariant(tiles: seq<TileData>, dice: DiceState, diceCount: int, status: GameStatus,
                           newDice: DiceState, ok: bool, newStatus: GameStatus, newPhase: TurnPhase,
                           sel: seq<string>)
    requires GameInvariant(tiles, dice, diceCount, status, Roll, [])
    requires status == Start || status == Playing
    requires !newDice.rolling && 1 <= newDice.values.0 <= 6 && 0 <= newDice.values.1 <= 6
    requires ok == Feasible(DiceSum(newDice), tiles)
    requires newStatus == (if ok then Playing else Lost) && newPhase == (if ok then Select else Roll)
    requires sel == []
    ensures GameInvariant(tiles, newDice, diceCount, newStatus, newPhase, sel)
  {
  }

  /** Confirming a selection that matches the dice keeps the invariant. */
  lemma ConfirmKeepsInvariant(tiles: seq<TileData>, dice: DiceState, diceCount: int, sel: seq<string>,
                              after: seq<TileData>, newStatus: GameStatus, newPhase: TurnPhase, newSel: seq<string>)
    requires GameInvariant(tiles, dice, diceCount, Playing, Select, sel)
    requires after == ShutSelected(tiles, sel)
    requires newStatus == (if AllShut(after) then Won else Playing)
    requires newPhase == (if AllShut(after) then Select else Roll)
    requires newSel == []
    ensures GameInvariant(after, dice, diceCount, newStatus, newPhase, newSel)
    ensures OpenTotal(after) == OpenTotal(tiles) - SelectedSum(tiles, sel)
  {
    SameLayoutBoard(after, tiles);
    ConfirmKeepsShutFromFront(tiles, sel);
    ShutSelectedKeepsOneDie(tiles, sel);
    ValidSelectionOpenTotal(tiles, sel);
  }

  /** A valid selection holds open tiles only, so shutting it lowers the open total by its sum. */
  lemma ValidSelectionOpenTotal(tiles: seq<TileData>, sel: seq<string>)
    requires SelectionValid(tiles, sel)
    ensures OpenTotal(ShutSelected(tiles, sel)) == OpenTotal(tiles) - SelectedSum(tiles, sel)
  {
    forall i | 0 <= i < |tiles| && tiles[i].id in sel ensures tiles[i].status == Open {
    }
    ShutSelectedOpenTotal(tiles, sel);
  }

  /**
   * The component's state fields and its handlers. The roll is one atomic
   * step: the dice values are parameters, and the 600 ms in which `rolling`
   * is set is not observable here.
   */
  class Game {
    var tiles: seq<TileData>
    var dice: DiceState
    var diceCount: int
    var status: GameStatus
    var turnPhase: TurnPhase
    var selectedTileIds: seq<string>

    /** The invariant of the game, on the current values of the fields. */
    ghost predicate Valid()
      reads this
    {
      GameInvariant(tiles, dice, diceCount, status, turnPhase, selectedTileIds)
    }

    /** The state of a fresh game (App.tsx:34-39 and 172-180). */
    ghost predicate IsFresh()
      reads this
    {
      tiles == InitialTiles() && status == Start && turnPhase == Roll &&
      dice == DiceState((1, 1), false) && diceCount == 2 && selectedTileIds == []
    }

    /** The initial `useState` values. */
    constructor ()
      ensures Valid() && IsFresh()
    {
      var board := CreateInitialTiles();
      tiles := board;
      dice := DiceState((1, 1), false);
      diceCount := 2;
      status := Start;
      turnPhase := Roll;
      selectedTileIds := [];
      FreshInvariant();
    }

    /** `handleReset`: a fresh board and a fresh game, from any state. */
    method HandleReset()
      modifies this
      ensures Valid() && IsFresh()
    {
      var board := CreateInitialTiles();
      tiles := board;
      status := Start;
      turnPhase := Roll;
      dice := DiceState((1, 1), false);
      diceCount := 2;
      selectedTileIds := [];
      FreshInvariant();
    }

    /**
     * The dice selector's buttons, `setDiceCount(n)`; the selector is only
     * rendered when one die may be rolled and the phase is roll.
     */
    method ChooseDiceCount(n: int)
      requires Valid()
      requires n == 1 || n == 2
      requires CanRollOneDie(tiles, status) && turnPhase == Roll
      modifies this`diceCount
      ensures Valid() && diceCount == n
    {
      DiceCountKeepsInvariant(tiles, dice, diceCount, status, selectedTileIds, n);
      diceCount := n;
    }

    /**
     * `handleRoll` with the dice `d1` and `d2` drawn: from a finished game it
     * resets; otherwise it resolves the roll (below). The roll button is not
     * rendered during a select phase in play.
     */
    method HandleRoll(d1: int, d2: int)
      requires Valid()
      requires 1 <= d1 <= 6 && 1 <= d2 <= 6
      requires !(status == Playing && turnPhase == Select)
      modifies this
      ensures Valid()
      ensures old(status) == Won || old(status) == Lost ==> IsFresh()
      ensures old(status) != Won && old(status) != Lost ==>
                tiles == old(tiles) && selectedTileIds == [] && diceCount == old(diceCount) &&
                dice == DiceState((d1, if diceCount == 2 then d2 else 0), false) &&
                (status == Lost <==> !Feasible(DiceSum(dice), tiles)) &&
                (status != Lost ==> status == Playing && turnPhase == Select) &&
                (status == Lost ==> turnPhase == Roll)
    {
      if status == Lost || status == Won {
        HandleReset();
        return;
      }
      ResolveRoll(d1, d2);
    }

    /**
     * The rest of `handleRoll`, from the roll phase of a game not finished: the
     * game is in play, the second die counts 0 when one die is rolled, and the
     * game is lost iff the solver finds the dice sum out of reach, else the
     * phase becomes select. The tiles and the (empty) selection do not change.
     */
    method ResolveRoll(d1: int, d2: int)
      requires Valid()
      requires 1 <= d1 <= 6 && 1 <= d2 <= 6
      requires status == Start || status == Playing
      requires !(status == Playing && turnPhase == Select)
      modifies this`dice, this`status, this`turnPhase
      ensures Valid()
      ensures selectedTileIds == [] &&
              dice == DiceState((d1, if diceCount == 2 then d2 else 0), false) &&
              DiceSum(dice) == d1 + (if diceCount == 2 then d2 else 0) &&
              (status == Lost <==> !Feasible(DiceSum(dice), tiles)) &&
              (status != Lost ==> status == Playing && turnPhase == Select) &&
              (status == Lost ==> turnPhase == Roll)
    {
      assert turnPhase == Roll && selectedTileIds == [];
      var second := if diceCount == 2 then d2 else 0;
      var rolled := DiceState((d1, second), false);
      var newSum := d1 + second;
      assert newSum == DiceSum(rolled);
      BoardColumns(tiles);
      var ok := CanMakeSum(newSum, tiles);
      var newStatus, newPhase := Lost, Roll;
      if ok {
        newStatus, newPhase := Playing, Select;
      }
      RollKeepsInvariant(tiles, dice, diceCount, status, rolled, ok, newStatus, newPhase, selectedTileIds);
      dice, status, turnPhase := rolled, newStatus, newPhase;
    }

    /**
     * `handleTileClick`: ignored unless a select phase is in play; clicking a
     * selected tile removes it with the selected tiles behind it in its column;
     * clicking another tile appends it. The view only passes clicks on the
     * board's available tiles.
     */
    method HandleTileClick(clicked: TileData)
      requires Valid()
      requires clicked in tiles
      requires clicked.id !in selectedTileIds ==> IsTileAvailable(clicked, tiles, selectedTileIds)
      modifies this`selectedTileIds
      ensures Valid()
      ensures old(status) != Playing || old(dice.rolling) || old(turnPhase) != Select ==>
                selectedTileIds == old(selectedTileIds)
      ensures old(status) == Playing && !old(dice.rolling) && old(turnPhase) == Select ==>
                selectedTileIds ==
                  if clicked.id in old(selectedTileIds) then RemoveWithDependents(tiles, clicked, old(selectedTileIds))
                  else old(selectedTileIds) + [clicked.id]
      ensures old(status) == Playing && old(turnPhase) == Select && clicked.id !in old(selectedTileIds) ==>
                SelectedSum(tiles, selectedTileIds) == old(SelectedSum(tiles, selectedTileIds)) + clicked.value
    {
      if status != Playing || dice.rolling || turnPhase != Select {
        return;
      }
      var prev := selectedTileIds;
      var next;
      if clicked.id in prev {
        next := RemoveWithDependents(tiles, clicked, prev);
      } else {
        next := prev + [clicked.id];
      }
      ClickKeepsInvariant(tiles, dice, diceCount, status, prev, clicked, next);
      selectedTileIds := next;
    }

    /**
     * `confirmMove`: with a selection not summing to the dice nothing changes;
     * otherwise exactly the selected tiles shut at once, the selection clears,
     * and the game is won iff every tile is now shut (the phase stays select),
     * else the phase is roll.
     * The button is only rendered during a select phase in play.
     */
    method ConfirmMove()
      requires Valid()
      requires status == Playing && turnPhase == Select
      modifies this`tiles, this`selectedTileIds, this`status, this`turnPhase
      ensures Valid()
      ensures old(SelectedSum(tiles, selectedTileIds)) != old(DiceSum(dice)) ==>
                tiles == old(tiles) && selectedTileIds == old(selectedTileIds) &&
                status == old(status) && turnPhase == old(turnPhase)
      ensures old(SelectedSum(tiles, selectedTileIds)) == old(DiceSum(dice)) ==>
                tiles == ShutSelected(old(tiles), old(selectedTileIds)) && selectedTileIds == [] &&
                OpenTotal(tiles) == old(OpenTotal(tiles)) - DiceSum(dice) &&
                (status == Won <==> AllShut(tiles)) &&
                (status == Won ==> turnPhase == Select) &&
                (status != Won ==> status == Playing && turnPhase == Roll)
    {
      if SelectedSum(tiles, selectedTileIds) != DiceSum(dice) {
        return;
      }
      var newTiles := ShutSelected(tiles, selectedTileIds);
      var newStatus, newPhase := Playing, Roll;
      if AllShut(newTiles) {
        newStatus, newPhase := Won, Select;
      }
      ConfirmKeepsInvariant(tiles, dice, diceCount, selectedTileIds, newTiles, newStatus, newPhase, []);
      tiles, selectedTileIds, status, turnPhase := newTiles, [], newStatus, newPhase;
    }
  }

  /** Adding an available tile of the board keeps the selection valid. */
  lemma SelectKeepsSelectionValid(tiles: seq<TileData>, prev: seq<string>, j: int)
    requires IsBoard(tiles) && SelectionValid(tiles, prev)
    requires 0 <= j < |tiles| && tiles[j].id !in prev
    requires IsTileAvailable(tiles[j], tiles, prev)
    ensures SelectionValid(tiles, prev + [tiles[j].id])
  {
    BoardFacts(tiles);
    var sel := prev + [tiles[j].id];
    assert TileIds(tiles)[j] == tiles[j].id;
    forall i | 0 <= i < |tiles| && tiles[i].id in sel ensures IsTileAvailable(tiles[i], tiles, sel) {
      if tiles[i].id == tiles[j].id {
        assert i == j;
        AvailableMonotone(tiles[j], tiles, prev, sel);
      } else {
        AvailableMonotone(tiles[i], tiles, prev, sel);
      }
    }
  }

  /** A selected tile that survives a deselection keeps its front tile: it is still available. */
  lemma DeselectKeepsAvailable(tiles: seq<TileData>, prev: seq<string>, j: int, i: int)
    requires IsBoard(tiles) && SelectionValid(tiles, prev)
    requires 0 <= j < |tiles| && 0 <= i < |tiles|
    requires tiles[i].id in RemoveWithDependents(tiles, tiles[j], prev)
    ensures IsTileAvailable(tiles[i], tiles, RemoveWithDependents(tiles, tiles[j], prev))
  {
    var sel := RemoveWithDependents(tiles, tiles[j], prev);
    BoardAvailable(tiles, prev, i);
    BoardAvailable(tiles, sel, i);
    if i >= Columns && tiles[i - Columns].status == Open {
      FrontSurvives(tiles, prev, j, i);
    }
  }

  /**
   * The front tile of a selected tile that survives a deselection survives it
   * too: it is neither the clicked tile nor behind it, or the tile would not be.
   */
  lemma FrontSurvives(tiles: seq<TileData>, prev: seq<string>, j: int, i: int)
    requires IsBoard(tiles)
    requires 0 <= j < |tiles| && Columns <= i < |tiles|
    requires tiles[i - Columns].id in prev
    requires tiles[i].id in RemoveWithDependents(tiles, tiles[j], prev)
    ensures tiles[i - Columns].id in RemoveWithDependents(tiles, tiles[j], prev)
  {
    assert tiles[i] in tiles;
    BoardUniqueIds(tiles);
    FrontCell(tiles, i);
    FrontNotBehind(tiles, j, i - Columns, i);
  }

  /** On a board in play tile `i - 9` is the tile directly in front of tile `i`. */
  lemma FrontCell(tiles: seq<TileData>, i: int)
    requires IsBoard(tiles) && Columns <= i < |tiles|
    ensures tiles[i - Columns].col == tiles[i].col && tiles[i - Columns].row < tiles[i].row
  {
    BoardCell(tiles, i);
    BoardCell(tiles, i - Columns);
  }

  /**
   * With distinct ids, a tile in front of one that is not behind `tiles[j]` is
   * neither `tiles[j]` nor behind it.
   */
  lemma FrontNotBehind(tiles: seq<TileData>, j: int, k: int, i: int)
    requires UniqueIds(tiles)
    requires 0 <= j < |tiles| && 0 <= k < |tiles| && 0 <= i < |tiles|
    requires tiles[k].col == tiles[i].col && tiles[k].row < tiles[i].row
    requires !IsBehind(tiles[i], tiles[j])
    ensures tiles[k].id != tiles[j].id
    ensures forall t :: t in tiles && t.id == tiles[k].id ==> !IsBehind(t, tiles[j])
  {
    assert tiles[k].id == tiles[j].id ==> k == j;
    forall t | t in tiles && t.id == tiles[k].id ensures !IsBehind(t, tiles[j]) {
      var m :| 0 <= m < |tiles| && tiles[m] == t;
      assert m == k;
    }
  }

  /** Removing a selected tile together with the selected tiles behind it keeps the selection valid. */
  lemma DeselectKeepsSelectionValid(tiles: seq<TileData>, prev: seq<string>, j: int)
    requires IsBoard(tiles) && SelectionValid(tiles, prev)
    requires 0 <= j < |tiles| && tiles[j].id in prev
    ensures SelectionValid(tiles, RemoveWithDependents(tiles, tiles[j], prev))
  {
    var sel := RemoveWithDependents(tiles, tiles[j], prev);
    forall i | 0 <= i < |tiles| && tiles[i].id in sel ensures IsTileAvailable(tiles[i], tiles, sel) {
      DeselectKeepsAvailable(tiles, prev, j, i);
    }
  }
}
