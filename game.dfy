/** The game session (game.go `Game`, `Statistics`, `Shot`, `FillBoard`,
    `Playable`, `Board`) and the placement engine that fills its board. */
module Battleships {
  import opened Types
  import opened Boards
  import opened Ships
  import opened Placement
  import opened Shots
  import opened Fills

  /** Shots fired, ships placed by the last `FillBoard`, ships sunk. */
  datatype Statistics = Statistics(shotsFired: int, initialShips: int, sunkShips: int)

  /** `Shot` before the board was filled. */
  datatype GameError = NotInitialized

  /** `isWithinBoard` on `uint8` coordinates (both are never negative). */
  function IsWithinBoard(row: uint8, col: uint8): (r: bool)
    ensures r <==> InRange(Position(row, col))
  {
    row >= 0 && (row as int) < Rows && col >= 0 && (col as int) < Cols
  }

  /** The copy `Board(hidden)` returns: with `hidden`, intact ship cells read as empty. */
  function Masked(g: Grid, hidden: bool): (h: Grid)
    requires IsGrid(g)
    ensures IsGrid(h)
    ensures !hidden ==> h == g
    ensures forall p :: InRange(p) && Cell(g, p) != ShipSlot ==> Cell(h, p) == Cell(g, p)
    ensures hidden ==> forall p :: InRange(p) ==> Cell(h, p) != ShipSlot
    ensures hidden ==> forall p :: InRange(p) && Cell(g, p) == ShipSlot ==> Cell(h, p) == EmptySlot
  {
    if !hidden then g
    else
      seq(Rows, r requires 0 <= r < Rows =>
        seq(Cols, c requires 0 <= c < Cols => if g[r][c] == ShipSlot then EmptySlot else g[r][c]))
  }

  class Game {
    var stats: Statistics
    /** `shipsData`: each ship cell maps to the id of the `Ship` it belongs to. */
    var shipsData: map<Position, nat>
    /** The `Ship` values `placeShip` allocated, by id: every cell of one placed
        ship refers to the same entry, so a hit anywhere on it lowers one health. */
    var fleet: seq<Ship>
    /** Where each ship of `fleet` was laid. */
    ghost var layout: seq<Placement>
    /** `SunkShips` as it stood when the last fill began: the fill resets the
        ships but not this counter. */
    ghost var sunkBase: nat
    const board: Board
    var initialized: bool

    /** The registry agrees with the board (see `Consistent`), once the game
        is initialized every cell holds one of the four symbols, `SunkShips`
        counts the ships sunk since the last fill began on top of `sunkBase`,
        and no more ships are laid than `InitialShips`. */
    ghost predicate Valid()
      reads this, board.cells
    {
      board.Valid() &&
      Consistent(board.Grid(), shipsData, fleet, layout) &&
      (initialized ==> AllSymbols(board.Grid())) &&
      stats.sunkShips == sunkBase + SunkCount(fleet) &&
      |fleet| <= stats.initialShips
    }

    /** The zero value `Game{}`: an all-zero board, no ships, not initialized. */
    constructor ()
      ensures Valid() && fresh(board.cells)
      ensures forall p :: InRange(p) ==> board.At(p) == 0 as char
      ensures stats == Statistics(0, 0, 0) && shipsData == map[] && fleet == [] && !initialized
      ensures sunkBase == 0
    {
      stats := Statistics(0, 0, 0);
      shipsData := map[];
      fleet := [];
      layout := [];
      sunkBase := 0;
      initialized := false;
      board := new Board();
    }

    /** The state the fill works on: board, registry, ships and placements. */
    ghost function State(): FillState
      requires board.Valid()
      reads this, board.cells
    {
      FillState(board.Grid(), shipsData, fleet, layout)
    }

    /** True while the game is initialized and fewer ships are sunk than were placed. */
    predicate Playable()
      reads this
      ensures Playable() ==> initialized
      ensures initialized ==> (Playable() <==> stats.sunkShips < stats.initialShips)
    {
      initialized && stats.sunkShips < stats.initialShips
    }

    /** `SunkShips` never exceeds `InitialShips` by more than the ships sunk
        before the last fill began. */
    lemma SunkWithinPlaced()
      requires Valid()
      ensures stats.sunkShips <= sunkBase + stats.initialShips
      ensures stats.sunkShips >= sunkBase
    {
    }

    /** When every ship asked for was laid, each with at least one cell, and no
        ship had been sunk before that fill (as on a new game), the game is
        playable exactly while some ship still has health left. */
    lemma PlayableWhileAfloat()
      requires Valid() && initialized && sunkBase == 0 && |fleet| == stats.initialShips
      requires forall id :: 0 <= id < |fleet| ==> fleet[id].size > 0
      ensures Playable() <==> exists id :: 0 <= id < |fleet| && fleet[id].health > 0
    {
      AllSunk(fleet, |fleet|);
    }

    /** Fire at `pos`. Before `FillBoard` this fails and changes nothing.
        Otherwise the shot is counted, board and ships change as `ShotOn` says,
        and a shot that sinks a ship is counted as a sunk ship. */
    method Shot(pos: Position) returns (hit: bool, sunk: bool, err: Option<GameError>)
      requires Valid() && InRange(pos)
      modifies this, board.cells
      ensures Valid()
      ensures shipsData == old(shipsData) && layout == old(layout) && initialized == old(initialized)
      ensures sunkBase == old(sunkBase)
      ensures !old(initialized) ==>
        err == Some(NotInitialized) && !hit && !sunk &&
        stats == old(stats) && fleet == old(fleet) && board.Grid() == old(board.Grid())
      ensures old(initialized) ==>
        err == None &&
        ShotOn(old(board.Grid()), shipsData, old(fleet), pos) == ShotEffect(board.Grid(), fleet, hit, sunk) &&
        stats == old(stats).(shotsFired := old(stats.shotsFired) + 1,
                             sunkShips := old(stats.sunkShips) + if sunk then 1 else 0)
    {
      if !initialized {
        return false, false, Some(NotInitialized);
      }
      stats := stats.(shotsFired := stats.shotsFired + 1);

      ghost var e := ShotOn(board.Grid(), shipsData, fleet, pos);
      ShotKeepsConsistent(board.Grid(), shipsData, fleet, layout, pos);
      if board.At(pos) == ShipSlot {
        ShotTally(board.Grid(), shipsData, fleet, layout, pos);
        board.Set(pos, HitShipSlot);
        var id := shipsData[pos];
        var (s, sunkNow) := fleet[id].Hit();
        fleet := fleet[id := s];
        if sunkNow {
          stats := stats.(sunkShips := stats.sunkShips + 1);
        }
        assert e == ShotEffect(board.Grid(), fleet, true, sunkNow);
        return true, sunkNow, None;
      } else if board.At(pos) == EmptySlot {
        board.Set(pos, MissedSlot);
      }
      assert e == ShotEffect(board.Grid(), fleet, false, false);
      return false, false, None;
    }

    /** `isAnotherShipInNeighbourhood`: scans the 3x3 box around (row, col),
        clamped to the board, for an intact ship cell. */
    method IsAnotherShipInNeighbourhood(row: uint8, col: uint8) returns (found: bool)
      requires board.Valid() && InRange(Position(row, col))
      ensures found == HasShipNear(board.Grid(), Position(row, col))
    {
      var minR := Max(0, ToInt8(WrapU8(row as int - 1)));
      var maxR := Min((Rows - 1) as int8, ToInt8(WrapU8(row as int + 1)));
      var minC := Max(0, ToInt8(WrapU8(col as int - 1)));
      var maxC := Min((Cols - 1) as int8, ToInt8(WrapU8(col as int + 1)));
      LowerClamp(row);
      UpperClamp(row);
      LowerClamp(col);
      UpperClamp(col);

      var i := minR;
      while i <= maxR
        invariant minR <= i <= maxR + 1
        invariant forall q :: (InRange(q) && minR as int <= q.row as int < i as int &&
          minC as int <= q.col as int <= maxC as int) ==> board.At(q) != ShipSlot
      {
        var j := minC;
        while j <= maxC
          invariant minC <= j <= maxC + 1
          invariant forall q :: (InRange(q) && minR as int <= q.row as int < i as int &&
            minC as int <= q.col as int <= maxC as int) ==> board.At(q) != ShipSlot
          invariant forall q :: (InRange(q) && q.row as int == i as int &&
            minC as int <= q.col as int < j as int) ==> board.At(q) != ShipSlot
        {
          if board.cells[i, j] == ShipSlot {
            assert board.At(Position(i as uint8, j as uint8)) == ShipSlot;
            return true;
          }
          j := j + 1;
        }
        i := i + 1;
      }
      return false;
    }

    /** `isValidPosition`: on the board, and no intact ship next to it. */
    method IsValidPosition(row: uint8, col: uint8) returns (ok: bool)
      requires board.Valid()
      ensures ok <==> InRange(Position(row, col)) && !HasShipNear(board.Grid(), Position(row, col))
    {
      if !IsWithinBoard(row, col) {
        return false;
      }
      var near := IsAnotherShipInNeighbourhood(row, col);
      return !near;
    }

    /** `canPlaceShip`: every cell the ship would occupy is a valid position. */
    method CanPlaceShip(ship: Ship, pos: Position, direction: Direction) returns (ok: bool)
      requires board.Valid() && Room(Placement(pos, direction), ship.size as int)
      ensures ok == CanPlace(board.Grid(), ship.size as int, Placement(pos, direction))
    {
      ghost var pl := Placement(pos, direction);
      var i: uint8 := 0;
      while i < ship.size
        invariant i <= ship.size
        decreases ship.size as int - i as int
        invariant forall k :: 0 <= k < i as int ==>
          InRange(CellAt(pl, k)) && !HasShipNear(board.Grid(), CellAt(pl, k))
      {
        var valid;
        match direction {
          case Horizontal =>
            valid := IsValidPosition(pos.row, pos.col + i);
          case Vertical =>
            valid := IsValidPosition(pos.row + i, pos.col);
        }
        assert CellAt(pl, i as int) == Position(if direction == Vertical then pos.row + i else pos.row,
                                                if direction == Horizontal then pos.col + i else pos.col);
        if !valid {
          return false;
        }
        i := i + 1;
      }
      return true;
    }

    /** `addShip`: mark `pos` as a ship cell and bind it to ship `id`. */
    method AddShip(id: nat, pos: Position)
      requires board.Valid() && InRange(pos)
      modifies this, board.cells
      ensures board.Grid() == Update(old(board.Grid()), pos, ShipSlot)
      ensures shipsData == old(shipsData)[pos := id]
      ensures fleet == old(fleet) && layout == old(layout) && sunkBase == old(sunkBase)
      ensures stats == old(stats) && initialized == old(initialized)
    {
      board.Set(pos, ShipSlot);
      shipsData := shipsData[pos := id];
    }

    /** `placeShip`: allocate one shared ship (a fresh id) and lay its cells
        from the anchor in the given direction, binding each to that id. */
    method PlaceShip(ship: Ship, pos: Position, direction: Direction)
      requires board.Valid() && Room(Placement(pos, direction), ship.size as int)
      requires forall i :: 0 <= i < ship.size as int ==> InRange(CellAt(Placement(pos, direction), i))
      modifies this, board.cells
      ensures fleet == old(fleet) + [ship] && layout == old(layout) + [Placement(pos, direction)]
      ensures board.Grid() == Painted(old(board.Grid()), Placement(pos, direction), ship.size as int)
      ensures shipsData == Registered(old(shipsData), Placement(pos, direction), ship.size as int, |old(fleet)|)
      ensures stats == old(stats) && initialized == old(initialized) && sunkBase == old(sunkBase)
    {
      ghost var pl := Placement(pos, direction);
      ghost var g0, data0 := board.Grid(), shipsData;
      var id := |fleet|;
      fleet := fleet + [ship];
      layout := layout + [pl];
      NothingLaidYet(g0, data0, pl, id);

      var i: uint8 := 0;
      while i < ship.size
        invariant i <= ship.size
        invariant board.Grid() == Painted(g0, pl, i as int)
        invariant shipsData == Registered(data0, pl, i as int, id)
        invariant fleet == old(fleet) + [ship] && layout == old(layout) + [pl]
        invariant stats == old(stats) && initialized == old(initialized) && sunkBase == old(sunkBase)
        decreases ship.size as int - i as int
      {
        assert CellAt(pl, i as int) == Position(if direction == Vertical then pos.row + i else pos.row,
                                                if direction == Horizontal then pos.col + i else pos.col);
        match direction {
          case Horizontal =>
            AddShip(id, Position(pos.row, pos.col + i));
          case Vertical =>
            AddShip(id, Position(pos.row + i, pos.col));
        }
        PaintStep(g0, pl, i as int);
        RegisterStep(data0, pl, i as int, id);
        i := i + 1;
      }
    }

    /** One attempt of `FillBoard`: draw a direction and an anchor from numbers
        `k`, `k+1`, `k+2` of `rng`, and ask `canPlaceShip` whether the ship may
        be laid there. */
    method Attempt(ship: Ship, rng: nat -> nat, k: nat) returns (ok: bool, pos: Position, direction: Direction)
      requires board.Valid() && ship.size as int <= Rows && ship.size as int <= Cols
      ensures Placement(pos, direction) == Draw(rng, k, ship.size)
      ensures ok == Accepts(board.Grid(), ship.size, rng, k)
    {
      direction := if Intn(rng, k, 2) == 0 then Horizontal else Vertical;
      var maxRow, maxCol := Rows, Cols;
      if direction == Horizontal {
        maxRow := Rows - ship.size as int + 1;
      } else {
        maxCol := Cols - ship.size as int + 1;
      }
      pos := RandomPosition(rng, k + 1, maxRow, maxCol);
      DrawIs(rng, k, ship.size, direction, maxRow, maxCol, pos);
      ok := CanPlaceShip(ship, pos, direction);
    }

    /** The start of `FillBoard`: every cell becomes empty and the registry is
        replaced by an empty one, which drops every ship laid before; the sunk
        ships counted so far stay in `SunkShips` and become the base. */
    method ResetBoard()
      requires Valid()
      modifies this, board.cells
      ensures Valid() && Filling(board.Grid(), shipsData, fleet)
      ensures board.Grid() == EmptyGrid()
      ensures shipsData == map[] && fleet == [] && layout == []
      ensures stats == old(stats) && initialized == old(initialized)
      ensures sunkBase == stats.sunkShips
    {
      var r := 0;
      while r < Rows
        invariant 0 <= r <= Rows
        invariant forall p :: InRange(p) && p.row as int < r ==> board.At(p) == EmptySlot
        modifies board.cells
      {
        var c := 0;
        while c < Cols
          invariant 0 <= c <= Cols
          invariant forall p :: InRange(p) && p.row as int < r ==> board.At(p) == EmptySlot
          invariant forall p :: InRange(p) && p.row as int == r && p.col as int < c ==> board.At(p) == EmptySlot
          modifies board.cells
        {
          board.cells[r, c] := EmptySlot;
          c := c + 1;
        }
        r := r + 1;
      }
      GridExtensional(board.Grid(), EmptyGrid());
      EmptyGridFilling(board.Grid());
      shipsData := map[];
      fleet := [];
      layout := [];
      sunkBase := stats.sunkShips;
    }

    /** The retry loop of `FillBoard` for one ship: draw (direction, anchor)
        from `rng`, starting at number `draws`, until `canPlaceShip` accepts a
        placement (`placed`, at `pos` in `direction`). The 50th attempt stops the
        fill (`stop`), whether or not it was accepted. `next` is the first number
        of the source not yet used. The board is not changed: the accepted
        placement is laid by `LayShip`. */
    method FindPlacement(s: Ship, rng: nat -> nat, draws: nat)
      returns (placed: bool, pos: Position, direction: Direction, stop: bool, next: nat)
      requires board.Valid() && s.size as int <= Rows && s.size as int <= Cols
      ensures TryShip(board.Grid(), s.size, rng, draws, 0) ==
        (if placed then Some(Placement(pos, direction)) else None, stop, next)
      ensures placed ==> CanPlace(board.Grid(), s.size as int, Placement(pos, direction))
    {
      ghost var g := board.Grid();
      next := draws;
      var tries := 0;
      // Each pass is one attempt; the loop is left only by the return, once an
      // attempt is accepted or the 50th one is made.
      while true
        invariant board.Grid() == g
        invariant tries < MaxTries && Reached(g, s.size, rng, draws, next, tries)
        decreases MaxTries - tries
      {
        placed, pos, direction := Attempt(s, rng, next);
        if placed || tries + 1 == MaxTries {
          ReachedSameOutcome(g, s.size, rng, draws, next, tries);
          if placed {
            TryShipAccepted(g, s.size, rng, next, tries);
          } else {
            TryShipRejected(g, s.size, rng, next, tries);
          }
          stop := tries + 1 == MaxTries;
          next := next + DrawsPerAttempt;
          return;
        }
        ReachedStep(g, s.size, rng, draws, next, tries);
        tries := tries + 1;
        next := next + DrawsPerAttempt;
      }
    }

    /** One ship of `FillBoard`: its attempts as `FindPlacement` makes them,
        then `placeShip` at the accepted placement, if there is one. It is
        called while fewer ships are laid than `InitialShips`. */
    method LayShip(s: Ship, rng: nat -> nat, draws: nat) returns (stop: bool, next: nat)
      requires Valid() && Filling(board.Grid(), shipsData, fleet)
      requires |fleet| < stats.initialShips
      requires s.size as int <= Rows && s.size as int <= Cols && s.health == s.size
      modifies this, board.cells
      ensures Valid() && Filling(board.Grid(), shipsData, fleet)
      ensures var r := TryShip(old(board.Grid()), s.size, rng, draws, 0);
        stop == r.1 && next == r.2 && State() == After(old(State()), s, r.0)
      ensures stats == old(stats) && initialized == old(initialized) && sunkBase == old(sunkBase)
    {
      var placed, pos, direction;
      placed, pos, direction, stop, next := FindPlacement(s, rng, draws);
      if placed {
        SunkCountAppend(fleet, s);
        PlaceKeepsConsistent(board.Grid(), shipsData, fleet, layout, s, Placement(pos, direction));
        PlaceShip(s, pos, direction);
        FillingSymbols(board.Grid(), shipsData, fleet);
      }
    }

    /** `FillBoard`: reset the board and the registry, record how many ships were
        asked for, then lay each ship in turn with `LayShip`. When one ship
        reaches its 50th attempt the fill ends there, even when that attempt
        succeeded: the remaining ships are not laid and `initialized` keeps its
        old value. The state left behind is the one `Fill` computes from the
        same source, and `complete` tells whether every ship was laid. */
    method FillBoard(ships: seq<Ship>, rng: nat -> nat) returns (ghost complete: bool)
      requires Valid()
      requires Fits(ships) && forall s :: s in ships ==> s.health == s.size
      modifies this, board.cells
      ensures Valid()
      ensures (State(), complete) == Fill(ships, rng)
      ensures stats == old(stats).(initialShips := |ships|) && sunkBase == old(stats.sunkShips)
      ensures |fleet| <= |ships| && fleet == ships[..|fleet|]
      ensures complete ==> |fleet| == |ships|
      ensures initialized == (old(initialized) || complete)
      ensures forall p :: InRange(p) ==> board.At(p) in {EmptySlot, ShipSlot}
      ensures forall p :: p in shipsData <==> InRange(p) && board.At(p) == ShipSlot
      ensures |shipsData.Keys| == SumSizes(fleet)
      ensures Laid(board.Grid(), shipsData, fleet, layout)
    {
      ResetBoard();
      stats := stats.(initialShips := |ships|);
      complete := false;
      ghost var target := Fill(ships, rng);

      var draws: nat := 0;
      var si := 0;
      while si < |ships|
        invariant 0 <= si <= |ships|
        invariant Valid() && Filling(board.Grid(), shipsData, fleet)
        invariant fleet == ships[..si]
        invariant LayFrom(State(), ships, si, rng, draws) == target
        invariant stats == old(stats).(initialShips := |ships|) && sunkBase == old(stats.sunkShips)
        invariant initialized == old(initialized) && !complete
      {
        ghost var st := State();
        ghost var t := TryShip(st.grid, ships[si].size, rng, draws, 0);
        LayFromNext(st, ships, si, rng, draws, t);
        var stop;
        stop, draws := LayShip(ships[si], rng, draws);
        if stop {
          LaidWhenFilling(board.Grid(), shipsData, fleet, layout);
          return;
        }
        si := si + 1;
      }
      LaidWhenFilling(board.Grid(), shipsData, fleet, layout);
      initialized := true;
      complete := true;
    }

    /** `Board(hidden)`: a fresh copy of the board, with intact ship cells shown
        as empty when `hidden`. Writing to the copy cannot affect the game. */
    method Board(hidden: bool) returns (b: Board)
      requires board.Valid()
      ensures fresh(b) && fresh(b.cells) && b.Valid()
      ensures b.Grid() == Masked(board.Grid(), hidden)
    {
      b := new Board();
      var r := 0;
      while r < Rows
        invariant 0 <= r <= Rows
        invariant forall p :: InRange(p) && p.row as int < r ==>
          b.At(p) == Cell(Masked(board.Grid(), hidden), p)
      {
        var c := 0;
        while c < Cols
          invariant 0 <= c <= Cols
          invariant forall p :: InRange(p) && p.row as int < r ==>
            b.At(p) == Cell(Masked(board.Grid(), hidden), p)
          invariant forall p :: InRange(p) && p.row as int == r && p.col as int < c ==>
            b.At(p) == Cell(Masked(board.Grid(), hidden), p)
        {
          if hidden && board.cells[r, c] == ShipSlot {
            b.cells[r, c] := EmptySlot;
          } else {
            b.cells[r, c] := board.cells[r, c];
          }
          c := c + 1;
        }
        r := r + 1;
      }
      GridExtensional(b.Grid(), Masked(board.Grid(), hidden));
    }
  }

  /** `FillBoard` does not reset `SunkShips`, so a second fill can leave an
      initialized game with more sunk ships than placed ones: a 1-cell ship is
      laid at A1, one shot sinks it, and a fill with no ships follows. */
  method RefillKeepsSunkShips() returns (g: Game)
    ensures g.Valid() && g.initialized
    ensures g.stats.sunkShips == 1 && g.stats.initialShips == 0
    ensures !g.Playable()
  {
    g := new Game();
    var rng: nat -> nat := k => 0;
    SingleShipFillCompletes();
    var complete := g.FillBoard([NewShip(1)], rng);
    ghost var pl := Placement(Position(0, 0), Horizontal);
    assert CellAt(pl, 0) in Segment(pl, 1);
    var hit, sunk, err := g.Shot(Position(0, 0));
    assert hit && sunk;
    complete := g.FillBoard([], rng);
  }

  /** A ship of size zero counts in `InitialShips` but has no cell to hit and
      can never be sunk, so a game filled with one stays playable although no
      ship has health left. */
  method ZeroSizeShipStaysPlayable() returns (g: Game)
    ensures g.Valid() && g.initialized && g.Playable()
    ensures |g.fleet| == 1 && g.fleet[0].health == 0
  {
    g := new Game();
    var rng: nat -> nat := k => 0;
    FirstDrawAccepted(Cleared(), [NewShip(0)], 0, rng, 0);
    var complete := g.FillBoard([NewShip(0)], rng);
  }
}
