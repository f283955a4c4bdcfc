/** What `Shot` does to the board and the ships once the game is initialized
    (game.go `Game.Shot`, lines 101-114), as a function of the state before. */
module Shots {
  import opened Types
  import opened Boards
  import opened Ships
  import opened Placement

  /** The board and ships after a shot, and the two flags the shot reports. */
  datatype ShotEffect = ShotEffect(grid: Grid, fleet: seq<Ship>, hit: bool, sunk: bool)

  /** An intact ship cell becomes hit and the ship it belongs to takes a hit; an
      empty cell becomes missed; a cell shot at before is left as it is. */
  function ShotOn(g: Grid, data: map<Position, nat>, fleet: seq<Ship>, pos: Position): (e: ShotEffect)
    requires IsGrid(g) && InRange(pos)
    requires Cell(g, pos) == ShipSlot ==> pos in data && data[pos] < |fleet|
    ensures IsGrid(e.grid) && |e.fleet| == |fleet|
    ensures e.hit <==> Cell(g, pos) == ShipSlot
    ensures e.sunk ==> e.hit
    ensures forall q :: InRange(q) && q != pos ==> Cell(e.grid, q) == Cell(g, q)
    ensures !e.hit ==> e.fleet == fleet
    ensures e.hit ==> forall j :: 0 <= j < |fleet| && j != data[pos] ==> e.fleet[j] == fleet[j]
    ensures forall j :: 0 <= j < |fleet| ==> e.fleet[j].size == fleet[j].size
  {
    if Cell(g, pos) == ShipSlot then
      var id := data[pos];
      var (s, sunk) := fleet[id].Hit();
      ShotEffect(Update(g, pos, HitShipSlot), fleet[id := s], true, sunk)
    else if Cell(g, pos) == EmptySlot then
      ShotEffect(Update(g, pos, MissedSlot), fleet, false, false)
    else
      ShotEffect(g, fleet, false, false)
  }

  /** A shot at an intact ship cell keeps the registry consistent: the owning
      ship still has health left before the hit (so `hit` never wraps), loses
      exactly one point, and reports sunk exactly when every one of its cells
      has now been hit. */
  lemma {:induction false} HitKeepsConsistent(g: Grid, data: map<Position, nat>, fleet: seq<Ship>,
                                              layout: seq<Placement>, pos: Position)
    requires Consistent(g, data, fleet, layout) && InRange(pos) && Cell(g, pos) == ShipSlot
    ensures pos in data && data[pos] < |fleet|
    ensures fleet[data[pos]].health > 0
    ensures var id := data[pos]; var g' := Update(g, pos, HitShipSlot);
      Consistent(g', data, fleet[id := fleet[id].Hit().0], layout) &&
      (fleet[id].Hit().1 <==> HitCells(g', data, id) == ShipCells(data, id))
  {
    var id := data[pos];
    var g' := Update(g, pos, HitShipSlot);
    var fleet' := fleet[id := fleet[id].Hit().0];
    var before, after := HitCells(g, data, id), HitCells(g', data, id);
    assert after == before + {pos};
    assert pos !in before;
    SubsetSize(after, ShipCells(data, id));
    SegmentSize(layout[id], fleet[id].size as int);
    HealthAfterHit(g, data, fleet, pos);
    assert MatchesBoard(g', data, |fleet'|);
    assert OnSegments(data, fleet', layout);
  }

  /** Hitting an intact cell of a ship with health left takes exactly one point
      off that ship and leaves every other ship's health in step with its hits. */
  lemma HealthAfterHit(g: Grid, data: map<Position, nat>, fleet: seq<Ship>, pos: Position)
    requires IsGrid(g) && KeysInRange(data) && InRange(pos) && pos in data && data[pos] < |fleet|
    requires HealthTracksHits(g, data, fleet) && fleet[data[pos]].health > 0
    requires |HitCells(Update(g, pos, HitShipSlot), data, data[pos])| == |HitCells(g, data, data[pos])| + 1
    ensures HealthTracksHits(Update(g, pos, HitShipSlot), data, fleet[data[pos] := fleet[data[pos]].Hit().0])
  {
    OtherHitsUnchanged(g, data, pos, HitShipSlot);
  }

  /** Writing a cell of ship `data[pos]` leaves every other ship's hit cells as they were. */
  lemma OtherHitsUnchanged(g: Grid, data: map<Position, nat>, pos: Position, v: char)
    requires IsGrid(g) && KeysInRange(data) && InRange(pos) && pos in data
    ensures forall k :: k != data[pos] ==> HitCells(Update(g, pos, v), data, k) == HitCells(g, data, k)
  {
    forall k | k != data[pos]
      ensures HitCells(Update(g, pos, v), data, k) == HitCells(g, data, k)
    {
    }
  }

  /** A shot at an empty cell keeps the registry consistent. */
  lemma MissKeepsConsistent(g: Grid, data: map<Position, nat>, fleet: seq<Ship>,
                            layout: seq<Placement>, pos: Position)
    requires Consistent(g, data, fleet, layout) && InRange(pos) && Cell(g, pos) == EmptySlot
    ensures Consistent(Update(g, pos, MissedSlot), data, fleet, layout)
  {
    var g' := Update(g, pos, MissedSlot);
    forall k | 0 <= k < |fleet|
      ensures HitCells(g', data, k) == HitCells(g, data, k)
    {
    }
  }

  /** Every shot keeps the board, the registry and the ships' health in step.
      It hits exactly when the cell held an intact ship; the cell turns 'X' (from
      'S') or 'O' (from '-') or stays as it was, and no other cell changes; only
      the owning ship's health moves, down by exactly one; the shot reports sunk
      exactly when that ship's cells are now all hit, which is exactly when its
      health reaches zero. */
  lemma ShotKeepsConsistent(g: Grid, data: map<Position, nat>, fleet: seq<Ship>,
                            layout: seq<Placement>, pos: Position)
    requires Consistent(g, data, fleet, layout) && InRange(pos)
    ensures var e := ShotOn(g, data, fleet, pos);
      Consistent(e.grid, data, e.fleet, layout) &&
      (AllSymbols(g) ==> AllSymbols(e.grid)) &&
      (e.hit <==> Cell(g, pos) == ShipSlot) &&
      (e.sunk ==> e.hit) &&
      Cell(e.grid, pos) == (if Cell(g, pos) == ShipSlot then HitShipSlot
                            else if Cell(g, pos) == EmptySlot then MissedSlot
                            else Cell(g, pos)) &&
      (forall q :: InRange(q) && q != pos ==> Cell(e.grid, q) == Cell(g, q)) &&
      (!e.hit ==> e.fleet == fleet)
    ensures var e := ShotOn(g, data, fleet, pos);
      e.hit ==>
        pos in data && data[pos] < |fleet| &&
        var id := data[pos];
        fleet[id].health > 0 &&
        e.fleet == fleet[id := fleet[id].(health := fleet[id].health - 1)] &&
        (e.sunk <==> e.fleet[id].health == 0) &&
        (e.sunk <==> HitCells(e.grid, data, id) == ShipCells(data, id))
  {
    if Cell(g, pos) == ShipSlot {
      HitKeepsConsistent(g, data, fleet, layout, pos);
    } else if Cell(g, pos) == EmptySlot {
      MissKeepsConsistent(g, data, fleet, layout, pos);
    }
  }

  /** A ship is sunk when it has cells and no health left. A ship of size zero
      has no cell to hit and is never sunk. */
  predicate Sunk(s: Ship) {
    s.size > 0 && s.health == 0
  }

  /** How many of the first `n` ships of the fleet are sunk: at most `n`. */
  function SunkAmong(fleet: seq<Ship>, n: nat): (c: nat)
    requires n <= |fleet|
    ensures c <= n
  {
    if n == 0 then 0 else SunkAmong(fleet, n - 1) + (if Sunk(fleet[n - 1]) then 1 else 0)
  }

  /** How many ships of the fleet are sunk. */
  function SunkCount(fleet: seq<Ship>): nat {
    SunkAmong(fleet, |fleet|)
  }

  /** No more ships are sunk than there are ships, and as many only when every
      ship is sunk. */
  lemma {:induction false} AllSunk(fleet: seq<Ship>, n: nat)
    requires n <= |fleet|
    ensures SunkAmong(fleet, n) == n <==> forall id :: 0 <= id < n ==> Sunk(fleet[id])
  {
    if n > 0 {
      AllSunk(fleet, n - 1);
    }
  }

  /** The count over the first `n` ships ignores the ships after them. */
  lemma {:induction false} SunkAmongPrefix(fleet: seq<Ship>, more: seq<Ship>, n: nat)
    requires n <= |fleet|
    ensures SunkAmong(fleet + more, n) == SunkAmong(fleet, n)
  {
    if n > 0 {
      SunkAmongPrefix(fleet, more, n - 1);
    }
  }

  /** A ship added to the fleet adds one to the count exactly when it is sunk. */
  lemma SunkCountAppend(fleet: seq<Ship>, s: Ship)
    ensures SunkCount(fleet + [s]) == SunkCount(fleet) + (if Sunk(s) then 1 else 0)
  {
    SunkAmongPrefix(fleet, [s], |fleet|);
  }

  /** Replacing ship `id` changes the count over the first `n` ships by the
      difference between what the old and the new ship contribute. */
  lemma {:induction false} SunkAmongUpdate(fleet: seq<Ship>, id: nat, s: Ship, n: nat)
    requires id < |fleet| && n <= |fleet|
    ensures SunkAmong(fleet[id := s], n) + (if id < n && Sunk(fleet[id]) then 1 else 0)
         == SunkAmong(fleet, n) + (if id < n && Sunk(s) then 1 else 0)
  {
    if n > 0 {
      SunkAmongUpdate(fleet, id, s, n - 1);
    }
  }

  /** On a consistent board a shot adds one to the number of sunk ships exactly
      when it reports a sinking: the ship hit was not sunk before, and it is
      sunk afterwards exactly when its health reached zero. */
  lemma ShotTally(g: Grid, data: map<Position, nat>, fleet: seq<Ship>,
                  layout: seq<Placement>, pos: Position)
    requires Consistent(g, data, fleet, layout) && InRange(pos)
    ensures var e := ShotOn(g, data, fleet, pos);
      SunkCount(e.fleet) == SunkCount(fleet) + (if e.sunk then 1 else 0)
  {
    ShotKeepsConsistent(g, data, fleet, layout, pos);
    var e := ShotOn(g, data, fleet, pos);
    if e.hit {
      var id := data[pos];
      assert fleet[id].health as int + |HitCells(g, data, id)| == fleet[id].size as int;
      SunkAmongUpdate(fleet, id, e.fleet[id], |fleet|);
    }
  }
}
