/**
 * The rule engine (utils.ts): the front-to-back availability rule and the
 * column-chain feasibility solver that detects a lost game.
 */
module Utils {
  import opened Types

  datatype Option<T> = None | Some(value: T)

  // ---------------------------------------------------------------------------
  // Availability (utils.ts:8-21)
  // ---------------------------------------------------------------------------

  /** `f` stands directly in front of `tile`: same column, one row nearer the front. */
  predicate IsFrontOf(f: TileData, tile: TileData) {
    f.col == tile.col && f.row == tile.row - 1
  }

  /** No two tiles of a board share a (row, column) position. */
  predicate UniquePositions(tiles: seq<TileData>) {
    forall i, j :: 0 <= i < j < |tiles| ==> tiles[i].row != tiles[j].row || tiles[i].col != tiles[j].col
  }

  /** The first tile of `allTiles` in front of `tile`, as `Array.prototype.find` returns it. */
  function FindFront(tile: TileData, allTiles: seq<TileData>): (r: Option<TileData>)
    ensures r.Some? ==> r.value in allTiles && IsFrontOf(r.value, tile)
    ensures r.None? <==> forall f :: f in allTiles ==> !IsFrontOf(f, tile)
  {
    if |allTiles| == 0 then None
    else if IsFrontOf(allTiles[0], tile) then Some(allTiles[0])
    else FindFront(tile, allTiles[1..])
  }

  /**
   * A tile can be clicked when it is open and the tile in front of it is shut
   * or already part of the selection; a front-row tile, or one with no tile in
   * front of it, only has to be open.
   */
  function IsTileAvailable(tile: TileData, allTiles: seq<TileData>, selectedTileIds: seq<string>): (r: bool)
    ensures tile.status == Shut ==> !r
    ensures tile.status == Open && tile.row == 0 ==> r
    ensures tile.status == Open && (forall f :: f in allTiles ==> !IsFrontOf(f, tile)) ==> r
  {
    if tile.status == Shut then false
    else if tile.row == 0 then true
    else match FindFront(tile, allTiles)
      case Some(front) => front.status == Shut || front.id in selectedTileIds
      case None => true
  }

  /** On a board without two tiles at one position, `find` returns the one front tile there is. */
  lemma FindFrontUnique(tile: TileData, allTiles: seq<TileData>, front: TileData)
    requires UniquePositions(allTiles)
    requires front in allTiles && IsFrontOf(front, tile)
    ensures FindFront(tile, allTiles) == Some(front)
  {
    var f := FindFront(tile, allTiles).value;
    var i :| 0 <= i < |allTiles| && allTiles[i] == f;
    var j :| 0 <= j < |allTiles| && allTiles[j] == front;
  }

  /**
   * Both directions of the availability rule for a tile that has a tile in
   * front of it: available iff open and (front row, or front shut, or front selected).
   */
  lemma AvailableIffFront(tile: TileData, allTiles: seq<TileData>, selectedTileIds: seq<string>, front: TileData)
    requires UniquePositions(allTiles)
    requires front in allTiles && IsFrontOf(front, tile)
    ensures IsTileAvailable(tile, allTiles, selectedTileIds) <==>
            tile.status == Open && (tile.row == 0 || front.status == Shut || front.id in selectedTileIds)
  {
    FindFrontUnique(tile, allTiles, front);
  }

  /** Selecting more tiles never makes an available tile unavailable. */
  lemma AvailableMonotone(tile: TileData, allTiles: seq<TileData>, a: seq<string>, b: seq<string>)
    requires forall id :: id in a ==> id in b
    requires IsTileAvailable(tile, allTiles, a)
    ensures IsTileAvailable(tile, allTiles, b)
  {
  }

  // ---------------------------------------------------------------------------
  // Reference definitions used by the solver (utils.ts:27-67)
  // ---------------------------------------------------------------------------

  /** The tiles of column `c`, in board order: what `columns[t.col].push(t)` collects. */
  function ColumnTiles(tiles: seq<TileData>, c: int): seq<TileData> {
    if |tiles| == 0 then []
    else ColumnTiles(tiles[..|tiles| - 1], c) + (if tiles[|tiles| - 1].col == c then [tiles[|tiles| - 1]] else [])
  }

  /** Column `c` collects exactly the board's tiles whose column is `c`. */
  lemma {:induction false} ColumnTilesMembers(tiles: seq<TileData>, c: int)
    ensures forall t :: t in ColumnTiles(tiles, c) <==> t in tiles && t.col == c
    decreases |tiles|
  {
    if |tiles| > 0 {
      assert tiles == tiles[..|tiles| - 1] + [tiles[|tiles| - 1]];
      ColumnTilesMembers(tiles[..|tiles| - 1], c);
    }
  }

  /** Column `c` holds each of the board's column-`c` tiles as often as the board does, and nothing else. */
  lemma {:induction false} ColumnTilesCounts(tiles: seq<TileData>, c: int)
    ensures forall t :: multiset(ColumnTiles(tiles, c))[t] == if t.col == c then multiset(tiles)[t] else 0
    decreases |tiles|
  {
    if |tiles| > 0 {
      assert tiles == tiles[..|tiles| - 1] + [tiles[|tiles| - 1]];
      ColumnTilesCounts(tiles[..|tiles| - 1], c);
    }
  }

  /** Ascending row order. */
  predicate SortedByRow(s: seq<TileData>) {
    forall i, j :: 0 <= i < j < |s| ==> s[i].row <= s[j].row
  }

  /** Inserts `t` in front of the first tile whose row is not smaller (so equal rows keep their order). */
  function InsertByRow(t: TileData, sorted: seq<TileData>): seq<TileData> {
    if |sorted| == 0 || t.row <= sorted[0].row then [t] + sorted
    else [sorted[0]] + InsertByRow(t, sorted[1..])
  }

  /** Inserting adds `t` and keeps every other tile. */
  lemma {:induction false} InsertByRowPerm(t: TileData, sorted: seq<TileData>)
    ensures multiset(InsertByRow(t, sorted)) == multiset(sorted) + multiset{t}
    ensures forall x :: x in InsertByRow(t, sorted) <==> x == t || x in sorted
    decreases |sorted|
  {
    if |sorted| > 0 && t.row > sorted[0].row {
      assert sorted == [sorted[0]] + sorted[1..];
      InsertByRowPerm(t, sorted[1..]);
    }
  }

  /** Inserting into a sorted column keeps it sorted. */
  lemma {:induction false} InsertKeepsSorted(t: TileData, sorted: seq<TileData>)
    requires SortedByRow(sorted)
    ensures SortedByRow(InsertByRow(t, sorted))
    decreases |sorted|
  {
    if |sorted| > 0 && t.row > sorted[0].row {
      var tail := sorted[1..];
      InsertKeepsSorted(t, tail);
      InsertByRowPerm(t, tail);
      var rest := InsertByRow(t, tail);
      assert forall x :: x in rest ==> sorted[0].row <= x.row;
      assert InsertByRow(t, sorted) == [sorted[0]] + rest;
    }
  }

  /** The stable sort by row that `col.sort((a, b) => a.row - b.row)` performs. */
  function SortByRow(s: seq<TileData>): seq<TileData> {
    if |s| == 0 then [] else InsertByRow(s[0], SortByRow(s[1..]))
  }

  /** The sort returns a permutation of its input in ascending row order. */
  lemma {:induction false} SortByRowPerm(s: seq<TileData>)
    ensures multiset(SortByRow(s)) == multiset(s)
    ensures forall x :: x in SortByRow(s) <==> x in s
    ensures SortedByRow(SortByRow(s))
    decreases |s|
  {
    if |s| > 0 {
      assert s == [s[0]] + s[1..];
      SortByRowPerm(s[1..]);
      InsertByRowPerm(s[0], SortByRow(s[1..]));
      InsertKeepsSorted(s[0], SortByRow(s[1..]));
    }
  }

  /** The values of the open tiles of a column, in its order. */
  function OpenValues(colTiles: seq<TileData>): seq<int> {
    if |colTiles| == 0 then []
    else
      var last := colTiles[|colTiles| - 1];
      OpenValues(colTiles[..|colTiles| - 1]) + (if last.status == Open then [last.value] else [])
  }

  /**
   * A column has at most as many open values as tiles, none negative when the
   * tile values are not, and none at all when every tile is shut.
   */
  lemma {:induction false} OpenValuesFacts(colTiles: seq<TileData>)
    ensures |OpenValues(colTiles)| <= |colTiles|
    ensures NonNegativeValues(colTiles) ==> forall k :: 0 <= k < |OpenValues(colTiles)| ==> OpenValues(colTiles)[k] >= 0
    ensures (forall t :: t in colTiles ==> t.status == Shut) ==> OpenValues(colTiles) == []
    decreases |colTiles|
  {
    if |colTiles| > 0 {
      var last := colTiles[|colTiles| - 1];
      assert colTiles == colTiles[..|colTiles| - 1] + [last];
      OpenValuesFacts(colTiles[..|colTiles| - 1]);
    }
  }

  /** Sum of a sequence of integers, added left to right. */
  function Sum(s: seq<int>): int {
    if |s| == 0 then 0 else Sum(s[..|s| - 1]) + s[|s| - 1]
  }

  /**
   * The options a column offers: 0 (take nothing), then the running sums of
   * its open tiles' values, one per prefix of the chain.
   */
  function ChainSums(colTiles: seq<TileData>): seq<int> {
    var vals := OpenValues(colTiles);
    seq(|vals| + 1, k requires 0 <= k <= |vals| => Sum(vals[..k]))
  }

  /** Per column, the options of its tiles sorted by row. */
  function BoardOptions(tiles: seq<TileData>): seq<seq<int>> {
    seq(Columns, c requires 0 <= c < Columns => ChainSums(SortByRow(ColumnTiles(tiles, c))))
  }

  /** The recursion of `check`: does some choice of options from `colIndex` on reach `target`? */
  function Search(opts: seq<seq<int>>, target: int, colIndex: nat, currentSum: int): bool
    requires |opts| == Columns
    decreases Columns - colIndex
  {
    if currentSum == target then true
    else if currentSum > target then false
    else if colIndex >= Columns then false
    else exists v :: v in opts[colIndex] && Search(opts, target, colIndex + 1, currentSum + v)
  }

  /** The value `canMakeSum(target, tiles)` returns. */
  function Feasible(target: int, tiles: seq<TileData>): bool {
    Search(BoardOptions(tiles), target, 0, 0)
  }

  /** `ch` picks one option from each column from `from` on. */
  ghost predicate IsChoiceFrom(opts: seq<seq<int>>, from: nat, ch: seq<int>) {
    from <= |opts| && |ch| == |opts| - from && forall k :: 0 <= k < |ch| ==> ch[k] in opts[from + k]
  }

  /** `ch` picks one option from every column. */
  ghost predicate IsChoice(opts: seq<seq<int>>, ch: seq<int>) {
    IsChoiceFrom(opts, 0, ch)
  }

  /** Every column from `from` on offers 0, and no option is negative. */
  ghost predicate SaneOptions(opts: seq<seq<int>>, from: nat) {
    forall i :: from <= i < |opts| ==> 0 in opts[i] && forall v :: v in opts[i] ==> v >= 0
  }

  // ---------------------------------------------------------------------------
  // The solver as the source runs it (utils.ts:27-67)
  // ---------------------------------------------------------------------------

  /** `columns[t.col].push(t)` for every tile: the tiles of each column in board order. */
  method GroupByColumn(allTiles: seq<TileData>) returns (columns: seq<seq<TileData>>)
    requires forall t :: t in allTiles ==> 0 <= t.col < Columns
    ensures |columns| == Columns
    ensures forall c :: 0 <= c < Columns ==> columns[c] == ColumnTiles(allTiles, c)
  {
    columns := seq(Columns, _ => []);
    for i := 0 to |allTiles|
      invariant |columns| == Columns
      invariant forall c :: 0 <= c < Columns ==> columns[c] == ColumnTiles(allTiles[..i], c)
    {
      var t := allTiles[i];
      assert allTiles[..i + 1][..i] == allTiles[..i];
      columns := columns[t.col := columns[t.col] + [t]];
    }
    assert allTiles[..|allTiles|] == allTiles;
  }

  /** `columns.forEach(col => col.sort(...))`: every column put in ascending row order. */
  method SortColumns(columns: seq<seq<TileData>>) returns (sorted: seq<seq<TileData>>)
    ensures |sorted| == |columns|
    ensures forall c :: 0 <= c < |columns| ==> sorted[c] == SortByRow(columns[c])
  {
    sorted := columns;
    for c := 0 to |columns|
      invariant |sorted| == |columns|
      invariant forall k :: 0 <= k < c ==> sorted[k] == SortByRow(columns[k])
      invariant forall k :: c <= k < |columns| ==> sorted[k] == columns[k]
    {
      sorted := sorted[c := SortByRow(sorted[c])];
    }
  }

  /** `options` lists, for each prefix of `vals` (shortest first), its sum. */
  ghost predicate IsPrefixSums(options: seq<int>, vals: seq<int>) {
    |options| == |vals| + 1 && forall k :: 0 <= k < |options| ==> options[k] == Sum(vals[..k])
  }

  lemma PrefixSumsExtend(options: seq<int>, vals: seq<int>, v: int)
    requires IsPrefixSums(options, vals)
    ensures IsPrefixSums(options + [Sum(vals) + v], vals + [v])
  {
    var vals' := vals + [v];
    assert vals'[..|vals'| - 1] == vals;
    forall k | 0 <= k <= |vals| ensures vals'[..k] == vals[..k] { }
    assert vals'[..|vals'|] == vals';
    assert vals[..|vals|] == vals;
  }

  lemma OpenValuesStep(colTiles: seq<TileData>, i: nat)
    requires i < |colTiles|
    ensures OpenValues(colTiles[..i + 1]) ==
            OpenValues(colTiles[..i]) + (if colTiles[i].status == Open then [colTiles[i].value] else [])
  {
    assert colTiles[..i + 1][..i] == colTiles[..i];
  }

  /**
   * One pass of the column loop: a shut tile leaves the options and the chain
   * sum as they are, an open tile extends both by its value.
   */
  lemma ChainStep(colTiles: seq<TileData>, i: nat, options: seq<int>, chainSum: int)
    requires i < |colTiles|
    requires chainSum == Sum(OpenValues(colTiles[..i]))
    requires IsPrefixSums(options, OpenValues(colTiles[..i]))
    ensures colTiles[i].status == Shut ==>
              chainSum == Sum(OpenValues(colTiles[..i + 1])) &&
              IsPrefixSums(options, OpenValues(colTiles[..i + 1]))
    ensures colTiles[i].status == Open ==>
              chainSum + colTiles[i].value == Sum(OpenValues(colTiles[..i + 1])) &&
              IsPrefixSums(options + [chainSum + colTiles[i].value], OpenValues(colTiles[..i + 1]))
  {
    var before := OpenValues(colTiles[..i]);
    OpenValuesStep(colTiles, i);
    if colTiles[i].status == Open {
      var v := colTiles[i].value;
      assert (before + [v])[..|before|] == before;
      PrefixSumsExtend(options, before, v);
    } else {
      assert OpenValues(colTiles[..i + 1]) == before + [] == before;
    }
  }

  /**
   * The loop of one column in `columnOptions`: starting from [0], every open
   * tile adds its value to the running chain sum and appends it; a shut tile
   * adds nothing but does not end the chain.
   */
  method ChainOptions(colTiles: seq<TileData>) returns (options: seq<int>)
    ensures IsPrefixSums(options, OpenValues(colTiles))
    ensures options[0] == 0
  {
    options := [0];
    var currentChainSum := 0;
    for i := 0 to |colTiles|
      invariant currentChainSum == Sum(OpenValues(colTiles[..i]))
      invariant IsPrefixSums(options, OpenValues(colTiles[..i]))
      invariant options[0] == 0
    {
      var tile := colTiles[i];
      ChainStep(colTiles, i, options, currentChainSum);
      if tile.status == Shut {
        continue;
      }
      currentChainSum := currentChainSum + tile.value;
      options := options + [currentChainSum];
    }
    assert colTiles[..|colTiles|] == colTiles;
  }

  /** `columns.map(...)`: the options of every column. */
  method ColumnOptions(columns: seq<seq<TileData>>) returns (options: seq<seq<int>>)
    ensures |options| == |columns|
    ensures forall c :: 0 <= c < |columns| ==> options[c] == ChainSums(columns[c])
  {
    options := [];
    for c := 0 to |columns|
      invariant |options| == c
      invariant forall k :: 0 <= k < c ==> options[k] == ChainSums(columns[k])
    {
      var o := ChainOptions(columns[c]);
      assert o == ChainSums(columns[c]);
      options := options + [o];
    }
  }

  /**
   * `check(colIndex, currentSum)`: true on reaching the target exactly, false
   * once past it or past the last column, otherwise tries this column's options
   * in order and stops at the first that succeeds.
   */
  method Check(columnOptions: seq<seq<int>>, target: int, colIndex: nat, currentSum: int) returns (found: bool)
    requires |columnOptions| == Columns
    ensures found == Search(columnOptions, target, colIndex, currentSum)
    decreases Columns - colIndex
  {
    if currentSum == target { return true; }
    if currentSum > target { return false; }
    if colIndex >= Columns { return false; }
    var possibleValues := columnOptions[colIndex];
    for k := 0 to |possibleValues|
      invariant forall j :: 0 <= j < k ==> !Search(columnOptions, target, colIndex + 1, currentSum + possibleValues[j])
    {
      var hit := Check(columnOptions, target, colIndex + 1, currentSum + possibleValues[k]);
      if hit {
        assert possibleValues[k] in columnOptions[colIndex];
        return true;
      }
    }
    return false;
  }

  /**
   * `canMakeSum(target, allTiles)`: group, sort, build the options and search.
   * Every tile's column must index one of the nine column lists (the source
   * fails otherwise). What the answer means is stated about `Feasible` below.
   */
  method CanMakeSum(target: int, allTiles: seq<TileData>) returns (r: bool)
    requires forall t :: t in allTiles ==> 0 <= t.col < Columns
    ensures r == Feasible(target, allTiles)
  {
    var columns := GroupByColumn(allTiles);
    columns := SortColumns(columns);
    var columnOptions := ColumnOptions(columns);
    assert columnOptions == BoardOptions(allTiles);
    r := Check(columnOptions, target, 0, 0);
  }

  // ---------------------------------------------------------------------------
  // Properties of the solver
  // ---------------------------------------------------------------------------

  lemma {:induction false} SumCons(v: int, s: seq<int>)
    ensures Sum([v] + s) == v + Sum(s)
    decreases |s|
  {
    if |s| > 0 {
      assert ([v] + s)[..|s|] == [v] + s[..|s| - 1];
      SumCons(v, s[..|s| - 1]);
    }
  }

  lemma {:induction false} SumNonNegative(s: seq<int>)
    requires forall k :: 0 <= k < |s| ==> s[k] >= 0
    ensures Sum(s) >= 0
    decreases |s|
  {
    if |s| > 0 {
      SumNonNegative(s[..|s| - 1]);
    }
  }

  lemma {:induction false} SumZeros(n: nat)
    ensures Sum(seq(n, _ => 0)) == 0
  {
    if n > 0 {
      assert seq(n, _ => 0)[..n - 1] == seq(n - 1, _ => 0);
      SumZeros(n - 1);
    }
  }

  /** Each option of a column is a sum of the first few open values (0 for none) and never negative. */
  lemma ChainSumsSane(colTiles: seq<TileData>)
    requires NonNegativeValues(colTiles)
    ensures 0 in ChainSums(colTiles)
    ensures forall v :: v in ChainSums(colTiles) ==> v >= 0
  {
    var vals := OpenValues(colTiles);
    var opts := ChainSums(colTiles);
    OpenValuesFacts(colTiles);
    assert opts[0] == Sum(vals[..0]) == 0;
    forall v | v in opts ensures v >= 0 {
      var k :| 0 <= k < |opts| && opts[k] == v;
      SumNonNegative(vals[..k]);
    }
  }

  /** With non-negative tile values every column offers 0 and only non-negative options. */
  lemma BoardOptionsSane(tiles: seq<TileData>)
    requires NonNegativeValues(tiles)
    ensures SaneOptions(BoardOptions(tiles), 0)
  {
    forall c | 0 <= c < Columns
      ensures 0 in BoardOptions(tiles)[c] && forall v :: v in BoardOptions(tiles)[c] ==> v >= 0
    {
      ColumnTilesMembers(tiles, c);
      SortByRowPerm(ColumnTiles(tiles, c));
      ChainSumsSane(SortByRow(ColumnTiles(tiles, c)));
    }
  }

  /** If `check` succeeds there is a choice of one option per remaining column that reaches the target. */
  lemma {:induction false} SearchWitness(opts: seq<seq<int>>, target: int, colIndex: nat, currentSum: int)
    returns (ch: seq<int>)
    requires |opts| == Columns && colIndex <= Columns
    requires SaneOptions(opts, colIndex)
    requires Search(opts, target, colIndex, currentSum)
    ensures IsChoiceFrom(opts, colIndex, ch) && currentSum + Sum(ch) == target
    decreases Columns - colIndex
  {
    if currentSum == target {
      ch := seq(Columns - colIndex, _ => 0);
      SumZeros(Columns - colIndex);
    } else {
      var v :| v in opts[colIndex] && Search(opts, target, colIndex + 1, currentSum + v);
      var rest := SearchWitness(opts, target, colIndex + 1, currentSum + v);
      ch := [v] + rest;
      SumCons(v, rest);
    }
  }

  /** Conversely, any choice from the remaining columns that reaches the target makes `check` succeed. */
  lemma {:induction false} SearchFinds(opts: seq<seq<int>>, target: int, colIndex: nat, currentSum: int, ch: seq<int>)
    requires |opts| == Columns && colIndex <= Columns
    requires SaneOptions(opts, colIndex)
    requires IsChoiceFrom(opts, colIndex, ch) && currentSum + Sum(ch) == target
    ensures Search(opts, target, colIndex, currentSum)
    decreases Columns - colIndex
  {
    SumNonNegative(ch);
    if currentSum != target && colIndex < Columns {
      var v := ch[0];
      var rest := ch[1..];
      assert ch == [v] + rest;
      SumCons(v, rest);
      SumNonNegative(rest);
      assert IsChoiceFrom(opts, colIndex + 1, rest) by {
        forall k | 0 <= k < |rest| ensures rest[k] in opts[colIndex + 1 + k] {
          assert rest[k] == ch[k + 1];
        }
      }
      SearchFinds(opts, target, colIndex + 1, currentSum + v, rest);
    }
  }

  /**
   * The solver's meaning: with non-negative tile values, `canMakeSum(target)`
   * holds iff some choice of one option per column sums to exactly `target`.
   */
  lemma FeasibleIffChoice(target: int, tiles: seq<TileData>)
    requires NonNegativeValues(tiles)
    ensures Feasible(target, tiles) <==> exists ch :: IsChoice(BoardOptions(tiles), ch) && Sum(ch) == target
  {
    var opts := BoardOptions(tiles);
    BoardOptionsSane(tiles);
    if Feasible(target, tiles) {
      var ch := SearchWitness(opts, target, 0, 0);
      assert IsChoice(opts, ch) && Sum(ch) == target;
    }
    if exists ch :: IsChoice(opts, ch) && Sum(ch) == target {
      var ch :| IsChoice(opts, ch) && Sum(ch) == target;
      SearchFinds(opts, target, 0, 0, ch);
    }
  }

  /** A target of 0 is always reachable: every board can "make" nothing. */
  lemma ZeroAlwaysFeasible(tiles: seq<TileData>)
    ensures Feasible(0, tiles)
  {
  }

  /** On a board whose tiles are all shut every column offers only 0. */
  lemma AllShutOptions(tiles: seq<TileData>)
    requires forall t :: t in tiles ==> t.status == Shut
    ensures forall c :: 0 <= c < Columns ==> BoardOptions(tiles)[c] == [0]
  {
    forall c | 0 <= c < Columns ensures BoardOptions(tiles)[c] == [0] {
      var col := SortByRow(ColumnTiles(tiles, c));
      ColumnTilesMembers(tiles, c);
      SortByRowPerm(ColumnTiles(tiles, c));
      OpenValuesFacts(col);
      assert OpenValues(col) == [];
      assert ChainSums(col) == [Sum([])];
    }
  }

  /** With only 0 on offer, no positive target is reached. */
  lemma {:induction false} ZeroOptionsFail(opts: seq<seq<int>>, target: int, colIndex: nat)
    requires |opts| == Columns && target > 0
    requires forall c :: 0 <= c < Columns ==> opts[c] == [0]
    ensures !Search(opts, target, colIndex, 0)
    decreases Columns - colIndex
  {
    if colIndex < Columns {
      ZeroOptionsFail(opts, target, colIndex + 1);
      assert forall v :: v in opts[colIndex] ==> v == 0;
    }
  }

  /** A fully shut board cannot make any positive target. */
  lemma AllShutInfeasible(target: int, tiles: seq<TileData>)
    requires forall t :: t in tiles ==> t.status == Shut
    requires target > 0
    ensures !Feasible(target, tiles)
  {
    AllShutOptions(tiles);
    ZeroOptionsFail(BoardOptions(tiles), target, 0);
  }

  /**
   * Column options are chain prefixes, not arbitrary subsets: the options of
   * a column are exactly 0 and the running sums of its open values in row order,
   * the column holding each of the board's column-`c` tiles exactly as often as the board does.
   */
  lemma ColumnOptionsArePrefixSums(tiles: seq<TileData>, c: int)
    requires 0 <= c < Columns
    ensures var col := SortByRow(ColumnTiles(tiles, c));
            SortedByRow(col) &&
            (forall t :: t in col <==> t in tiles && t.col == c) &&
            (forall t :: multiset(col)[t] == if t.col == c then multiset(tiles)[t] else 0) &&
            |BoardOptions(tiles)[c]| == |OpenValues(col)| + 1 &&
            forall k :: 0 <= k <= |OpenValues(col)| ==> BoardOptions(tiles)[c][k] == Sum(OpenValues(col)[..k])
  {
    ColumnTilesMembers(tiles, c);
    ColumnTilesCounts(tiles, c);
    SortByRowPerm(ColumnTiles(tiles, c));
  }
}
