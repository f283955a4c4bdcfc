/** Constants and small value types shared by the battleships engine (game.go). */
module Types {

  /** Go's `uint8`: positions, ship sizes and ship health are stored in it. */
  newtype uint8 = x: int | 0 <= x < 256

  /** Go's `int8`: the neighbourhood scan clamps its bounds in it. */
  newtype int8 = x: int | -128 <= x < 128

  /** Board dimensions. */
  const Rows: int := 10
  const Cols: int := 10

  /** The four cell symbols a board holds once it has been filled. */
  const EmptySlot: char := '-'
  const ShipSlot: char := 'S'
  const HitShipSlot: char := 'X'
  const MissedSlot: char := 'O'

  /** A (row, column) index into the board. */
  datatype Position = Position(row: uint8, col: uint8)

  predicate InRange(p: Position) {
    p.row as int < Rows && p.col as int < Cols
  }

  /** The two orientations `rand.Intn(2)` chooses between (0 and 1 in the source). */
  datatype Direction = Horizontal | Vertical

  datatype Option<T> = None | Some(value: T)

  datatype Result<T, E> = Ok(value: T) | Err(error: E)

  /** Conversion of an integer into `uint8`: Go keeps the low eight bits. */
  function WrapU8(x: int): (r: uint8)
    ensures 0 <= x < 256 ==> r as int == x
    ensures x == -1 ==> r == 255
  {
    (x % 256) as uint8
  }

  /** Conversion of a `uint8` into `int8`: the same eight bits read as two's complement. */
  function ToInt8(x: uint8): (r: int8)
    ensures x < 128 ==> r as int == x as int
    ensures x >= 128 ==> r as int == x as int - 256
  {
    if x < 128 then x as int8 else (x as int - 256) as int8
  }

  /** The source's `min` on `int8`. */
  function Min(x: int8, y: int8): (r: int8)
    ensures r <= x && r <= y
    ensures r == x || r == y
  {
    if x < y then x else y
  }

  /** The source's `max` on `int8`. */
  function Max(x: int8, y: int8): (r: int8)
    ensures r >= x && r >= y
    ensures r == x || r == y
  {
    if x > y then x else y
  }

  /** The lower bound `max(0, int8(x-1))` of the neighbourhood scan: the `uint8`
      underflow at 0 reads as -1 and is clamped back to 0. */
  lemma LowerClamp(x: uint8)
    requires x as int < Rows
    ensures Max(0, ToInt8(WrapU8(x as int - 1))) as int == if x == 0 then 0 else x as int - 1
  {
  }

  /** The upper bound `min(Rows-1, int8(x+1))` of the neighbourhood scan. */
  lemma UpperClamp(x: uint8)
    requires x as int < Rows
    ensures Min((Rows - 1) as int8, ToInt8(WrapU8(x as int + 1))) as int == if x as int == Rows - 1 then x as int else x as int + 1
  {
  }
}
