/** Value-level specification of ship placement and of the ship registry
    (game.go `canPlaceShip`, `isValidPosition`, `placeShip`, `addShip`, and the
    `shipsData` map that ties each ship cell to its shared `Ship`). */
module Placement {
  import opened Types
  import opened Boards
  import opened Ships

  /** Where a ship was laid: its anchor cell and its orientation. */
  datatype Placement = Placement(anchor: Position, dir: Direction)

  /** The first `n` cells from the anchor can be computed in `uint8` without wrap-around. */
  predicate Room(pl: Placement, n: nat) {
    pl.anchor.row as int + n <= 256 && pl.anchor.col as int + n <= 256
  }

  /** The `i`-th cell of a ship laid at `pl`: a horizontal ship runs along the
      columns of the anchor's row, a vertical one along the rows of its column. */
  function CellAt(pl: Placement, i: nat): (c: Position)
    requires Room(pl, i + 1)
  {
    match pl.dir
    case Horizontal => Position(pl.anchor.row, pl.anchor.col + i as uint8)
    case Vertical => Position(pl.anchor.row + i as uint8, pl.anchor.col)
  }

  /** The cells a ship of size `n` laid at `pl` occupies. */
  ghost function Segment(pl: Placement, n: nat): set<Position>
    requires Room(pl, n)
  {
    set i | 0 <= i < n :: CellAt(pl, i)
  }

  /** A ship of size `n` occupies exactly `n` distinct cells. */
  lemma {:induction false} SegmentSize(pl: Placement, n: nat)
    requires Room(pl, n)
    ensures |Segment(pl, n)| == n
  {
    if n > 0 {
      SegmentSize(pl, n - 1);
      assert Segment(pl, n) == Segment(pl, n - 1) + {CellAt(pl, n - 1)};
      assert CellAt(pl, n - 1) !in Segment(pl, n - 1);
    }
  }

  /** `isValidPosition` for every cell of the ship: on the board, and no intact
      ship in its clamped 8-neighbourhood (the cell itself included). */
  ghost predicate CanPlace(g: Grid, n: nat, pl: Placement)
    requires IsGrid(g)
  {
    Room(pl, n) &&
    forall i :: 0 <= i < n ==> InRange(CellAt(pl, i)) && !HasShipNear(g, CellAt(pl, i))
  }

  /** The grid after `addShip` has marked the cells of `Segment(pl, n)` as ship cells. */
  ghost function Painted(g: Grid, pl: Placement, n: nat): (h: Grid)
    requires IsGrid(g) && Room(pl, n)
    ensures IsGrid(h)
    ensures forall p :: InRange(p) ==> Cell(h, p) == if p in Segment(pl, n) then ShipSlot else Cell(g, p)
  {
    seq(Rows, r requires 0 <= r < Rows =>
      seq(Cols, c requires 0 <= c < Cols =>
        if Position(r as uint8, c as uint8) in Segment(pl, n) then ShipSlot else g[r][c]))
  }

  /** The registry after `addShip` has bound the cells of `Segment(pl, n)` to ship `id`. */
  ghost function Registered(data: map<Position, nat>, pl: Placement, n: nat, id: nat): (r: map<Position, nat>)
    requires Room(pl, n)
    ensures r.Keys == data.Keys + Segment(pl, n)
    ensures forall q :: q in r ==> r[q] == if q in Segment(pl, n) then id else data[q]
  {
    map q | q in data.Keys + Segment(pl, n) :: if q in Segment(pl, n) then id else data[q]
  }

  /** The cells the registry binds to ship `id`. */
  ghost function ShipCells(data: map<Position, nat>, id: nat): set<Position> {
    set p | p in data && data[p] == id
  }

  predicate KeysInRange(data: map<Position, nat>) {
    forall p :: p in data ==> InRange(p)
  }

  /** The cells of ship `id` that have been hit. */
  ghost function HitCells(g: Grid, data: map<Position, nat>, id: nat): set<Position>
    requires IsGrid(g) && KeysInRange(data)
  {
    set p | p in ShipCells(data, id) && Cell(g, p) == HitShipSlot
  }

  /** No two cells bound to different ships are within Chebyshev distance one. */
  ghost predicate Apart(data: map<Position, nat>) {
    forall p, q :: p in data && q in data && data[p] != data[q] ==> !Adjacent(p, q)
  }

  /** Registry cells name one of the first `count` ships and hold 'S' or 'X';
      every 'S' or 'X' cell is in the registry. */
  ghost predicate MatchesBoard(g: Grid, data: map<Position, nat>, count: nat)
    requires IsGrid(g) && KeysInRange(data)
  {
    (forall p :: p in data ==> data[p] < count && Cell(g, p) in {ShipSlot, HitShipSlot}) &&
    (forall p :: InRange(p) && Cell(g, p) in {ShipSlot, HitShipSlot} ==> p in data)
  }

  /** Ship `id` occupies exactly the straight segment it was laid on. */
  ghost predicate OnSegments(data: map<Position, nat>, fleet: seq<Ship>, layout: seq<Placement>)
    requires |layout| == |fleet|
  {
    forall id :: 0 <= id < |fleet| ==>
      Room(layout[id], fleet[id].size as int) &&
      ShipCells(data, id) == Segment(layout[id], fleet[id].size as int)
  }

  /** Each ship's health is its size minus the number of its cells already hit. */
  ghost predicate HealthTracksHits(g: Grid, data: map<Position, nat>, fleet: seq<Ship>)
    requires IsGrid(g) && KeysInRange(data)
  {
    forall id :: 0 <= id < |fleet| ==>
      fleet[id].health as int + |HitCells(g, data, id)| == fleet[id].size as int
  }

  /** The invariant that ties board, registry and ships together: the registry
      matches the board's ship cells, each ship sits on its segment, its health
      counts its unhit cells, and cells of different ships are never neighbours. */
  ghost predicate Consistent(g: Grid, data: map<Position, nat>, fleet: seq<Ship>, layout: seq<Placement>) {
    IsGrid(g) && KeysInRange(data) && |layout| == |fleet| &&
    MatchesBoard(g, data, |fleet|) &&
    OnSegments(data, fleet, layout) &&
    HealthTracksHits(g, data, fleet) &&
    Apart(data)
  }

  /** The total size of a list of ships. */
  function SumSizes(ships: seq<Ship>): nat {
    if ships == [] then 0 else SumSizes(ships[..|ships| - 1]) + ships[|ships| - 1].size as nat
  }

  /** The board while ships are being laid: only '-' and 'S' cells, and as many
      registered cells as the laid ships have in all. */
  ghost predicate Filling(g: Grid, data: map<Position, nat>, fleet: seq<Ship>)
    requires IsGrid(g)
  {
    (forall p :: InRange(p) ==> Cell(g, p) in {EmptySlot, ShipSlot}) &&
    |data.Keys| == SumSizes(fleet)
  }

  lemma SubsetSize<T>(a: set<T>, b: set<T>)
    requires a <= b
    ensures |a| <= |b|
    ensures |a| == |b| ==> a == b
  {
    assert b == a + (b - a);
    if |a| == |b| {
      assert |b - a| == 0;
    }
  }

  /** The cells of a valid placement are on the board, free, and apart from every
      cell already registered. */
  lemma {:induction false} PlacementIsFree(g: Grid, data: map<Position, nat>, fleet: seq<Ship>,
                                           layout: seq<Placement>, n: nat, pl: Placement)
    requires Consistent(g, data, fleet, layout) && Filling(g, data, fleet) && CanPlace(g, n, pl)
    ensures forall c :: c in Segment(pl, n) ==> InRange(c) && c !in data && Cell(g, c) == EmptySlot
    ensures forall c, q :: c in Segment(pl, n) && q in data ==> !Adjacent(c, q) && !Adjacent(q, c)
  {
    forall c | c in Segment(pl, n)
      ensures InRange(c) && c !in data && Cell(g, c) == EmptySlot
      ensures forall q :: q in data ==> !Adjacent(c, q) && !Adjacent(q, c)
    {
      var i :| 0 <= i < n && c == CellAt(pl, i);
      assert InRange(c) && !HasShipNear(g, c);
      assert Cell(g, c) != ShipSlot by {
        assert Adjacent(c, c);
      }
      forall q | q in data
        ensures !Adjacent(c, q) && !Adjacent(q, c)
      {
        assert Cell(g, q) == ShipSlot;
      }
    }
  }

  /** The registry after laying ship `id` on cells no ship holds yet: the new
      ship owns exactly its segment, every other ship keeps its cells, and the
      registry grows by the ship's size. */
  lemma RegistryAfterPlace(data: map<Position, nat>, pl: Placement, n: nat, id: nat)
    requires Room(pl, n)
    requires forall p :: p in data ==> data[p] < id
    requires forall c :: c in Segment(pl, n) ==> c !in data
    ensures ShipCells(Registered(data, pl, n, id), id) == Segment(pl, n)
    ensures forall k :: k != id ==> ShipCells(Registered(data, pl, n, id), k) == ShipCells(data, k)
    ensures |Registered(data, pl, n, id).Keys| == |data.Keys| + n
  {
    var data' := Registered(data, pl, n, id);
    assert data'.Keys == data.Keys + Segment(pl, n);
    SegmentSize(pl, n);
  }

  /** Laying ship `id` on free cells hits nothing: the new ship has no hit cell and
      every other ship keeps its hit cells. */
  lemma HitsAfterPlace(g: Grid, data: map<Position, nat>, pl: Placement, n: nat, id: nat)
    requires IsGrid(g) && KeysInRange(data) && Room(pl, n)
    requires forall p :: p in data ==> data[p] < id
    requires forall c :: c in Segment(pl, n) ==> InRange(c) && c !in data
    ensures KeysInRange(Registered(data, pl, n, id))
    ensures HitCells(Painted(g, pl, n), Registered(data, pl, n, id), id) == {}
    ensures forall k :: k != id ==>
      HitCells(Painted(g, pl, n), Registered(data, pl, n, id), k) == HitCells(g, data, k)
  {
    var g', data' := Painted(g, pl, n), Registered(data, pl, n, id);
    assert KeysInRange(data');
    assert forall p :: p in ShipCells(data', id) ==> Cell(g', p) == ShipSlot;
    forall k | k != id
      ensures HitCells(g', data', k) == HitCells(g, data, k)
    {
      assert ShipCells(data', k) == ShipCells(data, k);
    }
  }

  /** After laying ship `id` on free cells, the registered cells are still
      exactly the ship cells of the board, and every one names a laid ship. */
  lemma CellsAfterPlace(g: Grid, data: map<Position, nat>, pl: Placement, n: nat, id: nat)
    requires IsGrid(g) && KeysInRange(data) && Room(pl, n) && MatchesBoard(g, data, id)
    requires forall c :: c in Segment(pl, n) ==> InRange(c)
    ensures KeysInRange(Registered(data, pl, n, id))
    ensures MatchesBoard(Painted(g, pl, n), Registered(data, pl, n, id), id + 1)
  {
  }

  /** After laying ship `id` on free cells, every ship, the new one included,
      sits on the segment it was laid on. */
  lemma SegmentsAfterPlace(data: map<Position, nat>, fleet: seq<Ship>, layout: seq<Placement>,
                           ship: Ship, pl: Placement)
    requires |layout| == |fleet| && OnSegments(data, fleet, layout) && Room(pl, ship.size as int)
    requires forall p :: p in data ==> data[p] < |fleet|
    requires forall c :: c in Segment(pl, ship.size as int) ==> c !in data
    ensures OnSegments(Registered(data, pl, ship.size as int, |fleet|), fleet + [ship], layout + [pl])
  {
    RegistryAfterPlace(data, pl, ship.size as int, |fleet|);
  }

  /** After laying a ship at full health on free cells, every ship's health still
      counts its unhit cells. */
  lemma HealthAfterPlace(g: Grid, data: map<Position, nat>, fleet: seq<Ship>, ship: Ship, pl: Placement)
    requires IsGrid(g) && KeysInRange(data) && HealthTracksHits(g, data, fleet)
    requires ship.health == ship.size && Room(pl, ship.size as int)
    requires forall p :: p in data ==> data[p] < |fleet|
    requires forall c :: c in Segment(pl, ship.size as int) ==> InRange(c) && c !in data
    ensures KeysInRange(Registered(data, pl, ship.size as int, |fleet|))
    ensures HealthTracksHits(Painted(g, pl, ship.size as int), Registered(data, pl, ship.size as int, |fleet|),
                             fleet + [ship])
  {
    HitsAfterPlace(g, data, pl, ship.size as int, |fleet|);
  }

  /** Laying ship `id` apart from every registered cell keeps all ships apart. */
  lemma ApartAfterPlace(data: map<Position, nat>, pl: Placement, n: nat, id: nat)
    requires Room(pl, n) && Apart(data)
    requires forall p :: p in data ==> data[p] < id
    requires forall c, q :: c in Segment(pl, n) && q in data ==> !Adjacent(c, q) && !Adjacent(q, c)
    ensures Apart(Registered(data, pl, n, id))
  {
  }

  /** Laying a ship whose placement passed the check, on a board being filled,
      keeps the registry consistent: the new ship owns exactly its segment, at
      full health, apart from every other ship, and the count of ship cells grows
      by its size. */
  lemma {:induction false} PlaceKeepsConsistent(g: Grid, data: map<Position, nat>, fleet: seq<Ship>,
                                                layout: seq<Placement>, ship: Ship, pl: Placement)
    requires Consistent(g, data, fleet, layout) && Filling(g, data, fleet)
    requires CanPlace(g, ship.size as int, pl) && ship.health == ship.size
    ensures var n, id := ship.size as int, |fleet|;
      Consistent(Painted(g, pl, n), Registered(data, pl, n, id), fleet + [ship], layout + [pl]) &&
      Filling(Painted(g, pl, n), Registered(data, pl, n, id), fleet + [ship])
  {
    var n, id := ship.size as int, |fleet|;
    PlacementIsFree(g, data, fleet, layout, n, pl);
    CellsAfterPlace(g, data, pl, n, id);
    SegmentsAfterPlace(data, fleet, layout, ship, pl);
    HealthAfterPlace(g, data, fleet, ship, pl);
    ApartAfterPlace(data, pl, n, id);
    RegistryAfterPlace(data, pl, n, id);
    assert (fleet + [ship])[..|fleet|] == fleet;
  }

  /** Marking the next cell of the ship extends the painted segment by one. */
  lemma PaintStep(g: Grid, pl: Placement, i: nat)
    requires IsGrid(g) && Room(pl, i + 1) && InRange(CellAt(pl, i))
    ensures Update(Painted(g, pl, i), CellAt(pl, i), ShipSlot) == Painted(g, pl, i + 1)
  {
    assert Segment(pl, i + 1) == Segment(pl, i) + {CellAt(pl, i)};
    GridExtensional(Update(Painted(g, pl, i), CellAt(pl, i), ShipSlot), Painted(g, pl, i + 1));
  }

  /** Binding the next cell of the ship extends the registered segment by one. */
  lemma RegisterStep(data: map<Position, nat>, pl: Placement, i: nat, id: nat)
    requires Room(pl, i + 1)
    ensures Registered(data, pl, i, id)[CellAt(pl, i) := id] == Registered(data, pl, i + 1, id)
  {
    assert Segment(pl, i + 1) == Segment(pl, i) + {CellAt(pl, i)};
  }

  /** Before its first cell is laid, a ship has changed neither the grid nor the registry. */
  lemma NothingLaidYet(g: Grid, data: map<Position, nat>, pl: Placement, id: nat)
    requires IsGrid(g)
    ensures Painted(g, pl, 0) == g
    ensures Registered(data, pl, 0, id) == data
  {
    assert Segment(pl, 0) == {};
    GridExtensional(Painted(g, pl, 0), g);
  }

  /** A board being filled holds only the symbols of a filled board. */
  lemma FillingSymbols(g: Grid, data: map<Position, nat>, fleet: seq<Ship>)
    requires IsGrid(g) && Filling(g, data, fleet)
    ensures AllSymbols(g)
  {
  }

  /** The all-empty board with an empty registry and no ships is consistent and being filled. */
  lemma EmptyGridFilling(g: Grid)
    requires IsGrid(g) && forall p :: InRange(p) ==> Cell(g, p) == EmptySlot
    ensures Consistent(g, map[], [], []) && Filling(g, map[], []) && AllSymbols(g)
  {
  }

  /** What a fill leaves behind: ships pairwise apart, each at full health on
      the straight segment it was laid on, and 'S' exactly on registered cells. */
  ghost predicate Laid(g: Grid, data: map<Position, nat>, fleet: seq<Ship>, layout: seq<Placement>)
    requires IsGrid(g)
  {
    |layout| == |fleet| &&
    Apart(data) &&
    (forall p :: p in data <==> InRange(p) && Cell(g, p) == ShipSlot) &&
    (forall id :: 0 <= id < |fleet| ==>
      fleet[id].health == fleet[id].size &&
      Room(layout[id], fleet[id].size as int) &&
      ShipCells(data, id) == Segment(layout[id], fleet[id].size as int))
  }

  /** A consistent board being filled has no hit cells, so every ship is at full health. */
  lemma LaidWhenFilling(g: Grid, data: map<Position, nat>, fleet: seq<Ship>, layout: seq<Placement>)
    requires Consistent(g, data, fleet, layout) && Filling(g, data, fleet)
    ensures Laid(g, data, fleet, layout)
  {
    forall id | 0 <= id < |fleet|
      ensures fleet[id].health == fleet[id].size
    {
      assert HitCells(g, data, id) == {};
    }
  }
}
