/** The value types shared by the rule engine and the turn state machine (types.ts). */
module Types {

  /** Overall game status: exactly one of the four (types.ts:1). */
  datatype GameStatus = Start | Playing | Won | Lost

  /** A tile is either open or shut, never both (types.ts:8). */
  datatype TileStatus = Open | Shut

  /** One tile of the board. `row` 0 is the front row, 1 the middle, 2 the back. */
  datatype TileData = TileData(id: string, row: int, col: int, value: int, status: TileStatus)

  /** The dice: exactly two face values (the second is 0 in a one-die roll) and a rolling flag. */
  datatype DiceState = DiceState(values: (int, int), rolling: bool)

  const Rows: nat := 3
  const Columns: nat := 9

  /** The documented ranges of a tile's position (types.ts:5-6). */
  predicate WellFormedTile(t: TileData) {
    0 <= t.row < Rows && 0 <= t.col < Columns
  }

  /** Every tile's face value is at least zero; the solver's characterisation depends on it. */
  predicate NonNegativeValues(tiles: seq<TileData>) {
    forall t :: t in tiles ==> t.value >= 0
  }
}
