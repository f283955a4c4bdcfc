# Battleships engine in Dafny

A model of the single-player battleships engine in `game.go`. The board is
10×10 and holds one of four symbols per cell: `-` empty, `S` intact ship,
`X` hit ship, `O` missed shot. The model covers:

- the coordinate parser `ConvertInputToPosition`, which accepts `^[A-J](10|[1-9])$`
  and returns a position or a `PatternMismatch`;
- the board primitives `At` and `Set`;
- the `Ship` value, `NewShip` and `hit`;
- the placement engine, `FillBoard` together with `canPlaceShip`,
  `isValidPosition`, `isWithinBoard`, `isAnotherShipInNeighbourhood`,
  `min`/`max`, `placeShip` and `addShip`;
- the session operations `Shot`, `Playable` and `Board(hidden)`.

Modules, one per file:

- `Types` (types.dfy): Go's `uint8` and `int8` as newtypes with explicit
  wrap-around, the board constants, `Position` and `Direction`.
- `Boards` (boards.dfy): the board as a class over a 10×10 `array2<char>`,
  with a value view `Grid()`.
- `Ships` (ships.dfy): the `Ship` value and its `uint8` health.
- `Coordinates` (coordinates.dfy): the parser, the accepted pattern as a
  predicate, and the label of a position as its inverse.
- `Placement` (placement.dfy): value-level specifications of a placement,
  of the cells a ship occupies, of the registry, and of the invariant
  `Consistent`.
- `Shots` (shots.dfy): `ShotOn`, the effect of one shot as a function of the
  state before it, the proof that it keeps `Consistent`, and the number of
  sunk ships in a fleet.
- `Fills` (fills.dfy): the random draws of `FillBoard` and the outcome of its
  retry loop (`TryShip` for one ship, `Fill` for the whole fill) as functions
  of the random source.
- `Battleships` (game.dfy): the `Game` class with the imperative operations.

In Go, `placeShip` passes `&ship`, the address of its own copy of the ship.
Every cell of one placed ship therefore refers to one shared `Ship`, and a
hit anywhere on it lowers that ship's health. The model keeps these shared
ships in a sequence `fleet`, indexed by an id. `shipsData` maps each ship
cell to the id of its ship. A ghost `layout` records where each ship was laid.

The invariant `Consistent` holds in every reachable state. It states:

- the registry's cells are exactly the board's `S`/`X` cells;
- each ship owns exactly the straight segment it was laid on;
- each ship's health is its size minus the number of its cells marked `X`;
- cells of different ships are never neighbours, diagonals included.

It follows that `hit` never wraps its `uint8` health. It also follows that a
shot sinks a ship exactly when all of that ship's cells are hit.

The invariant `Valid` of `Game` adds `Consistent` and ties the counters to
the ships. A ghost `sunkBase` records `SunkShips` as it stood when the last
fill began. `SunkShips` is always `sunkBase` plus the number of sunk ships in
`fleet`, and no more ships are laid than `InitialShips`. A ship counts as
sunk when it has at least one cell and no health left.

The random source `math/rand` is replaced by an explicit oracle
`rng: nat -> nat`. `FillBoard` uses draw `k` for the direction and draws
`k+1`, `k+2` for the anchor row and column. All properties hold for every
oracle. `FillBoard` is proved to leave exactly the state that `Fill` computes
from the same oracle.

Behaviour of the code that its comments do not lead one to expect:

- The doc comment of `FillBoard` (game.go:117-118) says the game is fully
  initialized afterwards. The code sets `initialized` only when every ship was
  laid. When the 50th attempt for one ship is reached, even an attempt that
  succeeds, it returns early (game.go:149-151). The remaining ships are not
  laid and `initialized` keeps its previous value. The ghost result `complete`
  of `FillBoard` says which case happened.
- The anchor range is narrowed on the wrong axis. A horizontal ship narrows
  the row range (game.go:138-139), yet it extends along the columns. Only the
  on-board test in `canPlaceShip` keeps ships on the board.
  `HorizontalDrawMayOverhang` exhibits such a draw.
- `FillBoard` resets `InitialShips` but not `ShotsFired` or `SunkShips`.
  `SunkShips ≤ InitialShips` therefore fails after a second fill:
  `RefillKeepsSunkShips` lays a 1-cell ship, sinks it, and fills again with
  no ships. The game is then initialized with one sunk ship and none placed.
  What does hold is `SunkShips ≤ sunkBase + InitialShips`
  (`SunkWithinPlaced`).
- The comment of `Playable` (game.go:157) says it reports whether ships are
  still alive. `PlayableWhileAfloat` proves this when the last fill laid every
  ship, each ship has at least one cell, and no ship was sunk before that
  fill, as on a new game. Outside that case the comment does not hold. After
  a second fill, earlier sinkings still count. A ship of size 0 counts in
  `InitialShips` but can never be sunk, so `ZeroSizeShipStaysPlayable`
  stays playable with no ship alive.

## Model

| member | source | states |
|---|---|---|
| Coordinates.ConvertInputToPosition | game.go:258-273 | Fails exactly when the input does not match the pattern of game.go:18 (a letter A–J, then 1–9 or 10), and the error carries the input. On success the position is on the board, the row is the letter's distance from 'A', and the column is the number minus one. |
| Coordinates.LabelParses | game.go:258-273 | Every board position is the result of parsing its label. |
| Coordinates.ParsedIsLabel | game.go:258-273 | Any text that parses to a position is that position's label, so parsing is injective on accepted input. |
| Coordinates.PatternIsLabels | game.go:18 | The pattern `^[A-J](10\|[1-9])$` accepts a text iff it is the label of one of the 100 board positions. |
| Coordinates.DecimalValue | game.go:270 | `strconv.ParseUint` in base 10 gives the digit's value for one digit and ten times the first digit plus the second for two. |
| Coordinates.ColumnNumber | game.go:268-270 | The number after the letter of an accepted text is between 1 and 10: the digit itself, or 10 for "10". |
| Coordinates.ParsingExamples | game_test.go:7-47 | A1→(0,0), A10→(0,9), J1→(9,0), J10→(9,9), B5→(1,4), C6→(2,5), D7→(3,6) and E8→(4,7). A0, A11, K1 and a1 give a `PatternMismatch` carrying the input. |
| Boards.Board.constructor | game.go:164 | A new `Board{}` is the Go zero value: every cell holds byte 0. |
| Boards.Board.At | game.go:45-47 | Reading a cell returns that cell of the board's value view. |
| Boards.Board.Set | game.go:50-52 | After `Set(p, v)`, `At(p) == v`, every other cell is unchanged, and the new board is the old one with cell `p` replaced. |
| Ships.Ship.Hit | game.go:60-63 | Size is unchanged. Health drops by exactly one, wrapping from 0 to 255 as Go's `uint8` does. The result is true iff the new health is 0. |
| Ships.NewShip | game.go:66-71 | A new ship has `health == size == n`. |
| Ships.NewShipSinksOnLastHit | game.go:60-71 | A new ship of size n has health n−k after k hits, and the k-th hit reports sunk exactly when k == n. |
| Types.Min | game.go:226-231 | The result is at most both arguments and equals one of them. |
| Types.Max | game.go:233-238 | The result is at least both arguments and equals one of them. |
| Types.LowerClamp | game.go:211 | `max(0, int8(x-1))` is x−1, or 0 when x == 0, where the `uint8` underflow reads as −1. |
| Types.UpperClamp | game.go:212 | `min(Rows-1, int8(x+1))` is x+1, or x when x == 9. |
| Battleships.IsWithinBoard | game.go:206-208 | True iff the coordinates lie on the 10×10 board. |
| Battleships.Game.IsAnotherShipInNeighbourhood | game.go:210-224 | True iff some on-board cell within Chebyshev distance one holds `S`. The cell itself is included. |
| Battleships.Game.IsValidPosition | game.go:202-204 | True iff the cell is on the board and no `S` is in its neighbourhood. |
| Battleships.Game.CanPlaceShip | game.go:185-200 | True iff every cell of the ship, laid from the anchor in the direction, is a valid position (`CanPlace`). |
| Battleships.Game.AddShip | game.go:251-254 | The cell becomes `S` and is bound to the ship's id. Nothing else changes. |
| Battleships.Game.PlaceShip | game.go:240-249 | Appends one shared ship to the fleet. Paints `S` on exactly the ship's segment and binds exactly those cells to the new id. |
| Placement.SegmentSize | game.go:240-249 | A ship of size n occupies n distinct cells. |
| Placement.PlacementIsFree | game.go:185-224 | The cells of an accepted placement are on the board, empty, unregistered, and not adjacent to any registered cell. |
| Placement.PlaceKeepsConsistent | game.go:145-148 | Laying an accepted ship at full health keeps `Consistent`. The count of ship cells grows by the ship's size, and the board still holds only `-` and `S`. |
| Placement.LaidWhenFilling | game.go:119-155 | A consistent board being filled has every ship at full health on its segment, ships pairwise apart, and `S` exactly on registered cells. |
| Battleships.Game.Attempt | game.go:135-145 | One attempt: the direction and anchor drawn from numbers k, k+1, k+2 are the placement `Draw` gives, and the answer is whether `canPlaceShip` accepts that placement on the current board. |
| Battleships.Game.FindPlacement | game.go:133-152 | The retry loop for one ship ends with the outcome `TryShip` gives for the same board and draws: the accepted placement, if any, whether the 50th attempt was reached, and the next unused draw. An accepted placement passes `CanPlace`. |
| Battleships.Game.LayShip | game.go:130-152 | After one ship's attempts, the state is `After(old state, ship, placement)` for the outcome `TryShip` gives: the ship is laid where its first accepted attempt drew it, and nothing changes if none was accepted. `stop` and the next draw are those of `TryShip`. Statistics, `sunkBase` and `initialized` are unchanged. |
| Battleships.Game.ResetBoard | game.go:120-125 | Every cell becomes `-`, and the registry and fleet become empty. The current `SunkShips` becomes `sunkBase`. |
| Battleships.Game.FillBoard | game.go:119-155 | The board, registry, fleet and layout, and the flag `complete`, are exactly what `Fill(ships, rng)` gives. `InitialShips == len(ships)`, the other counters are kept, and `sunkBase` is the old `SunkShips`. The laid ships are a prefix of `ships`, and all of them when the fill completes. `initialized` becomes true exactly when the fill completes, and keeps its old value otherwise. Every cell is `-` or `S`. The registry's cells are exactly the `S` cells, and their number is the sum of the laid ships' sizes. Ships are pairwise apart, and each lies at full health on its segment. |
| Fills.RandomPosition | game.go:178-183 | The drawn row is below `maxR` and the column below `maxC`. |
| Fills.Intn | game.go:135 | A draw from `Intn(n)` lies in `[0, n)`. |
| Fills.DrawRanges | game.go:135-143 | An even first number gives a horizontal ship. A horizontal anchor has its row at most `Rows - size` and any column; a vertical anchor has any row and its column at most `Cols - size`. |
| Fills.HorizontalDrawMayOverhang | game.go:136-143 | A horizontal draw can place the anchor in column 9, so a two-cell ship's second cell is off the board. |
| Fills.TryShip | game.go:133-152 | The outcome of one ship's attempts: unless the 50th attempt stopped the fill, the ship was laid, and any placement laid passes `canPlaceShip` on the board as it was. |
| Fills.TryShipDraws | game.go:133-152 | One ship uses at least one attempt and at most 50, three draws each. |
| Fills.ReachedSameOutcome | game.go:133-152 | After rejected attempts, the rest of the loop gives the ship the same outcome as the loop from its first attempt. |
| Fills.LayFrom | game.go:130-153 | The ships laid are the next ones of `ships`, in order, and all of them when the fill completes. |
| Fills.FirstDrawAccepted | game.go:145-148 | A ship whose first drawn placement is accepted is laid there, and the fill continues with the next ship three draws later. |
| Fills.EmptyBoardAccepts | game.go:185-224 | On an empty board a placement is accepted iff all of its cells are on the board. |
| Fills.SingleShipFillCompletes | game.go:119-155 | With a source that always yields 0, one ship of size 1 is laid horizontally at A1 and the fill completes. |
| Shots.ShotKeepsConsistent | game.go:101-114 | A shot keeps `Consistent`. It hits iff the cell was `S`. The cell turns `S`→`X`, `-`→`O`, or stays the same, and no other cell changes. Only the owning ship loses health, by exactly one, without wrapping. Sunk iff that ship's health reaches 0, iff all of its cells are now `X`. |
| Shots.HitKeepsConsistent | game.go:103-110 | A hit on `S` finds a registered ship with health left, keeps `Consistent`, and reports sunk iff all of that ship's cells are hit. |
| Shots.HealthAfterHit | game.go:105-106 | A step of the proof of `HitKeepsConsistent`: after a hit, each ship's health still equals its size minus its hit cells. |
| Shots.ShotOn | game.go:101-114 | The shot hits iff the cell was `S`, and reports sunk only on a hit. No other cell changes. A miss leaves the ships as they were, and a hit changes no ship but the one owning the cell. |
| Shots.MissKeepsConsistent | game.go:111-112 | A shot at `-` keeps `Consistent`. |
| Battleships.Game.Shot | game.go:97-115 | Before initialization it returns `NotInitialized` and changes nothing. Afterwards `ShotsFired` rises by one, board and ships change as `ShotOn` says, the result is `(hit, sunk)`, and `SunkShips` rises by one iff sunk. `Valid` is kept, so `SunkShips` stays `sunkBase` plus the number of sunk ships. |
| Battleships.Game.Playable | game.go:158-160 | Only an initialized game is playable. Once initialized, it is playable iff fewer ships are sunk than were placed. |
| Battleships.Game.PlayableWhileAfloat | game.go:157-160 | Take an initialized game whose last fill laid all `InitialShips` ships, each with at least one cell, with no ship sunk before that fill. It is playable iff some ship still has health left. |
| Battleships.Game.SunkWithinPlaced | game.go:97-126 | In every valid state `SunkShips` lies between `sunkBase` and `sunkBase + InitialShips`. |
| Battleships.RefillKeepsSunkShips | game.go:119-126 | A 1-cell ship is filled in, sunk by one shot, and followed by a fill with no ships. This leaves an initialized, valid game with `SunkShips == 1`, `InitialShips == 0`, and not playable. |
| Battleships.ZeroSizeShipStaysPlayable | game.go:157-160 | A fill with one ship of size 0 completes and leaves a valid, initialized game. It is playable, although its only ship has health 0. |
| Shots.ShotTally | game.go:103-110 | On a consistent board, a shot raises the number of sunk ships in the fleet by one iff it reports a sinking. The ship hit was not sunk before, and is sunk afterwards iff its health reached 0. |
| Battleships.Masked | game.go:163-176 | Without `hidden` the copy equals the board. With `hidden`, every `S` reads as `-` and all other cells are kept. |
| Battleships.Game.Board | game.go:163-176 | Returns a freshly allocated board equal to `Masked(board, hidden)`, so writing to the copy cannot affect the game. |
| Battleships.Game.constructor | game.go:74-80 | The zero-value game: zero statistics, an empty registry, not initialized, an all-zero board, and `sunkBase == 0`. |

## Left out

- cmd/battleships/main.go, the console loop, is not part of this model. It only prompts, reads input and prints boards.
- The `math/rand` generator seeded from the clock (game.go:128) is replaced by the oracle parameter `rng` of `FillBoard`.
- The error branch of `regexp.MatchString` (game.go:259-262) cannot be taken with the constant pattern. The pattern is modelled as the predicate `MatchesPattern`.
- `PatternMismatch.Error()` (game.go:37-39) only formats a message and is not modelled.
- Battleships.Game.FillBoard: requires every ship to have `size <= 10`, because for a larger size `rand.Intn` is given a bound ≤ 0 and panics. It also requires `health == size`: the fields of `Ship` are unexported, so outside the package a ship can only be built by `NewShip` or as the zero value, and both satisfy it.
- Battleships.Game.Shot: requires an on-board position. Go indexes the board array with it and panics otherwise, and every `Position` a caller can build comes from `ConvertInputToPosition` or the zero value.
- Ships.Ship.Hit: is a function on the ship value. `Shot` applies it to the shared ship's entry in `fleet`, which models Go's in-place decrement through the shared `*Ship`.
- The `Statistics` counters are Go `int`s. The model uses unbounded integers, because 64-bit overflow of a shot counter is out of reach.
- Battleships.Game.Attempt, Battleships.Game.FindPlacement, Battleships.Game.LayShip and Battleships.Game.ResetBoard are parts of `FillBoard` split out as methods of their own: one attempt, the retry loop of one ship, one ship with its placement, and the reset loops. `LayShip` requires fewer laid ships than `InitialShips`, which holds at every pass of the loop of `FillBoard`. `ResetBoard` requires `Valid`, which holds when `FillBoard` is called.
- Battleships.Game.LayShip: lays the accepted placement after the retry loop has ended, whereas Go lays it inside the accepting pass. Nothing between the two points reads or writes the board.
- Go strings are byte strings. The model uses `seq<char>`, which agrees with them on the ASCII input the pattern accepts.
