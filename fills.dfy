/** The random draws of `FillBoard` and the outcome of its retry loop
    (game.go lines 128-154, `randomPosition`), as functions of the random source. */
module Fills {
  import opened Types
  import opened Boards
  import opened Ships
  import opened Placement

  /** `rand.Intn(n)` on an explicit random source: the `k`-th number it produces,
      reduced into `[0, n)`. */
  function Intn(rng: nat -> nat, k: nat, n: int): (r: int)
    requires n > 0
    ensures 0 <= r < n
  {
    rng(k) % n
  }

  /** `randomPosition`: a row below `maxR` and a column below `maxC`, drawn in that order. */
  function RandomPosition(rng: nat -> nat, k: nat, maxR: int, maxC: int): (p: Position)
    requires 0 < maxR <= 256 && 0 < maxC <= 256
    ensures p.row as int < maxR && p.col as int < maxC
  {
    Position(Intn(rng, k, maxR) as uint8, Intn(rng, k + 1, maxC) as uint8)
  }

  /** Every attempt takes three numbers from the source: the direction, then the
      anchor's row and column. */
  const DrawsPerAttempt: nat := 3

  /** The attempt at which `FillBoard` gives up. */
  const MaxTries: nat := 50

  /** The ships `FillBoard` can be given: `rand.Intn` panics on the anchor range
      of a longer ship. */
  predicate Fits(ships: seq<Ship>) {
    forall j :: 0 <= j < |ships| ==> ships[j].size as int <= Rows && ships[j].size as int <= Cols
  }

  /** The attempt drawn from numbers `k`, `k+1`, `k+2`: direction 0 is horizontal.
      A horizontal ship narrows the anchor's row range by its size minus one, a
      vertical ship the column range. */
  function Draw(rng: nat -> nat, k: nat, size: uint8): (pl: Placement)
    requires size as int <= Rows && size as int <= Cols
    ensures Room(pl, size as int)
  {
    var dir := if Intn(rng, k, 2) == 0 then Horizontal else Vertical;
    var maxRow := if dir == Horizontal then Rows - size as int + 1 else Rows;
    var maxCol := if dir == Horizontal then Cols else Cols - size as int + 1;
    Placement(RandomPosition(rng, k + 1, maxRow, maxCol), dir)
  }

  /** An even first number draws a horizontal ship. A horizontal anchor leaves
      `size - 1` rows free below it, a vertical one `size - 1` columns to its
      right; the other coordinate is any on the board. */
  lemma DrawRanges(rng: nat -> nat, k: nat, size: uint8)
    requires size as int <= Rows && size as int <= Cols
    ensures var pl := Draw(rng, k, size);
      (pl.dir == Horizontal <==> rng(k) % 2 == 0) &&
      (pl.dir == Horizontal ==> pl.anchor.row as int <= Rows - size as int && (pl.anchor.col as int) < Cols) &&
      (pl.dir == Vertical ==> (pl.anchor.row as int) < Rows && pl.anchor.col as int <= Cols - size as int)
  {
  }

  /** The attempt `FillBoard` computes step by step is the one `Draw` gives. */
  lemma DrawIs(rng: nat -> nat, k: nat, size: uint8, dir: Direction, maxRow: int, maxCol: int, pos: Position)
    requires size as int <= Rows && size as int <= Cols
    requires dir == if Intn(rng, k, 2) == 0 then Horizontal else Vertical
    requires maxRow == if dir == Horizontal then Rows - size as int + 1 else Rows
    requires maxCol == if dir == Horizontal then Cols else Cols - size as int + 1
    requires pos == RandomPosition(rng, k + 1, maxRow, maxCol)
    ensures Placement(pos, dir) == Draw(rng, k, size)
  {
  }

  /** Because the row range is the one narrowed for a horizontal ship, whose
      cells run along the columns, a draw can leave the ship hanging off the
      right edge: here a two-cell or longer horizontal ship anchored at column 9.
      The on-board part of `CanPlace` rejects it on any board. */
  lemma HorizontalDrawMayOverhang(g: Grid, size: uint8)
    requires IsGrid(g) && 2 <= size as int <= Cols
    ensures var pl := Draw(k => if k == 0 then 0 else 9, 0, size);
      pl.dir == Horizontal && pl.anchor.col == 9 &&
      !InRange(CellAt(pl, 1)) && !CanPlace(g, size as int, pl)
  {
  }

  /** The board, registry, ships and placements while `FillBoard` runs. */
  datatype FillState = FillState(grid: Grid, data: map<Position, nat>, fleet: seq<Ship>, layout: seq<Placement>)

  /** The board with every cell empty. */
  function EmptyGrid(): (g: Grid)
    ensures IsGrid(g)
    ensures forall p :: InRange(p) ==> Cell(g, p) == EmptySlot
  {
    seq(Rows, r => seq(Cols, c => EmptySlot))
  }

  /** The state right after `FillBoard` has reset the board and the registry. */
  function Cleared(): FillState {
    FillState(EmptyGrid(), map[], [], [])
  }

  /** `placeShip` on the state: ship `s` becomes the next ship, laid at `pl`. */
  ghost function Lay(st: FillState, s: Ship, pl: Placement): FillState
    requires IsGrid(st.grid) && Room(pl, s.size as int)
  {
    var n := s.size as int;
    FillState(Painted(st.grid, pl, n), Registered(st.data, pl, n, |st.fleet|), st.fleet + [s], st.layout + [pl])
  }

  /** Whether `canPlaceShip` accepts, on board `g`, the attempt drawn at `k`. */
  ghost predicate Accepts(g: Grid, size: uint8, rng: nat -> nat, k: nat)
    requires IsGrid(g) && size as int <= Rows && size as int <= Cols
  {
    CanPlace(g, size as int, Draw(rng, k, size))
  }

  /** The attempts for a ship of size `size` on board `g` after `tries` have
      failed, starting at number `k` of the source: each draws a placement, and
      the first that `canPlaceShip` accepts is where the ship is laid. Attempt
      number `MaxTries` ends the whole fill, whether or not it was accepted.
      Returns the placement laid (if any), whether the fill stops here, and the
      next unused number of the source. */
  ghost function TryShip(g: Grid, size: uint8, rng: nat -> nat, k: nat, tries: nat): (r: (Option<Placement>, bool, nat))
    requires IsGrid(g) && size as int <= Rows && size as int <= Cols && tries < MaxTries
    ensures !r.1 ==> r.0.Some?
    ensures r.0.Some? ==> Room(r.0.value, size as int) && CanPlace(g, size as int, r.0.value)
    decreases MaxTries - tries
  {
    var pl := Draw(rng, k, size);
    var accepted := Accepts(g, size, rng, k);
    var laid := if accepted then Some(pl) else None;
    if tries + 1 == MaxTries then (laid, true, k + DrawsPerAttempt)
    else if accepted then (laid, false, k + DrawsPerAttempt)
    else TryShip(g, size, rng, k + DrawsPerAttempt, tries + 1)
  }

  /** The attempts for one ship take at least one and at most `MaxTries` draws
      of three numbers each from the source. */
  lemma {:induction false} TryShipDraws(g: Grid, size: uint8, rng: nat -> nat, k: nat, tries: nat)
    requires IsGrid(g) && size as int <= Rows && size as int <= Cols && tries < MaxTries
    ensures k < TryShip(g, size, rng, k, tries).2 <= k + DrawsPerAttempt * (MaxTries - tries)
    decreases MaxTries - tries
  {
    if tries + 1 < MaxTries && !CanPlace(g, size as int, Draw(rng, k, size)) {
      TryShipDraws(g, size, rng, k + DrawsPerAttempt, tries + 1);
    }
  }

  /** The attempts of a ship that started at number `draws` of the source have
      reached number `k` after `tries` of them, all rejected. */
  ghost predicate Reached(g: Grid, size: uint8, rng: nat -> nat, draws: nat, k: nat, tries: nat)
    requires IsGrid(g) && size as int <= Rows && size as int <= Cols
    decreases tries
  {
    if tries == 0 then
      k == draws
    else
      k >= DrawsPerAttempt && Reached(g, size, rng, draws, k - DrawsPerAttempt, tries - 1) &&
      !Accepts(g, size, rng, k - DrawsPerAttempt)
  }

  /** A rejected attempt moves the ship's attempts on by one. */
  lemma ReachedStep(g: Grid, size: uint8, rng: nat -> nat, draws: nat, k: nat, tries: nat)
    requires IsGrid(g) && size as int <= Rows && size as int <= Cols
    requires Reached(g, size, rng, draws, k, tries) && !Accepts(g, size, rng, k)
    ensures Reached(g, size, rng, draws, k + DrawsPerAttempt, tries + 1)
  {
  }

  /** Rejected attempts hand the ship's outcome on unchanged. */
  lemma {:induction false} ReachedSameOutcome(g: Grid, size: uint8, rng: nat -> nat, draws: nat, k: nat, tries: nat)
    requires IsGrid(g) && size as int <= Rows && size as int <= Cols && tries < MaxTries
    requires Reached(g, size, rng, draws, k, tries)
    ensures TryShip(g, size, rng, draws, 0) == TryShip(g, size, rng, k, tries)
    decreases tries
  {
    if tries > 0 {
      var prev := k - DrawsPerAttempt;
      ReachedSameOutcome(g, size, rng, draws, prev, tries - 1);
      TryShipRejected(g, size, rng, prev, tries - 1);
      assert prev + DrawsPerAttempt == k && tries - 1 + 1 == tries;
    }
  }

  /** An attempt `canPlaceShip` accepts ends the ship's attempts with the ship
      laid at the drawn placement; the fill stops if it was attempt `MaxTries`. */
  lemma TryShipAccepted(g: Grid, size: uint8, rng: nat -> nat, k: nat, tries: nat)
    requires IsGrid(g) && size as int <= Rows && size as int <= Cols && tries < MaxTries
    requires Accepts(g, size, rng, k)
    ensures TryShip(g, size, rng, k, tries) == (Some(Draw(rng, k, size)), tries + 1 == MaxTries, k + DrawsPerAttempt)
  {
  }

  /** A rejected attempt stops the fill with nothing laid if it was attempt
      `MaxTries`, and otherwise leaves the rest to the next attempt. */
  lemma TryShipRejected(g: Grid, size: uint8, rng: nat -> nat, k: nat, tries: nat)
    requires IsGrid(g) && size as int <= Rows && size as int <= Cols && tries < MaxTries
    requires !Accepts(g, size, rng, k)
    ensures tries + 1 == MaxTries ==> TryShip(g, size, rng, k, tries) == (None, true, k + DrawsPerAttempt)
    ensures tries + 1 < MaxTries ==> TryShip(g, size, rng, k, tries) == TryShip(g, size, rng, k + DrawsPerAttempt, tries + 1)
  {
  }

  /** The state after ship `s` went through its attempts: laid at the accepted
      placement, if there was one. */
  ghost function After(st: FillState, s: Ship, laid: Option<Placement>): (r: FillState)
    requires IsGrid(st.grid) && (laid.Some? ==> Room(laid.value, s.size as int))
    ensures IsGrid(r.grid)
    ensures r.fleet == if laid.Some? then st.fleet + [s] else st.fleet
  {
    if laid.Some? then Lay(st, s, laid.value) else st
  }

  /** The fill from ship `i` on, starting at number `k` of the source: each ship
      in turn goes through its attempts, until every ship is laid (the flag is
      true) or one reaches `MaxTries` (the flag is false). The ships laid are
      the next ones of `ships`, in order, and all of them when the fill completes. */
  ghost function LayFrom(st: FillState, ships: seq<Ship>, i: nat, rng: nat -> nat, k: nat): (r: (FillState, bool))
    requires IsGrid(st.grid) && i <= |ships| && Fits(ships) && st.fleet == ships[..i]
    ensures IsGrid(r.0.grid)
    ensures i <= |r.0.fleet| <= |ships| && r.0.fleet == ships[..|r.0.fleet|]
    ensures r.1 ==> |r.0.fleet| == |ships|
    decreases |ships| - i
  {
    if i == |ships| then (st, true)
    else
      var t := TryShip(st.grid, ships[i].size, rng, k, 0);
      var st' := After(st, ships[i], t.0);
      PrefixStep(ships, i);
      if t.1 then (st', false) else LayFrom(st', ships, i + 1, rng, t.2)
  }

  /** Ship `i` went through its attempts with outcome `t`: the fill stops there
      when `t` says so, and otherwise goes on with the next ship from the
      number `t` ends at. */
  lemma LayFromNext(st: FillState, ships: seq<Ship>, i: nat, rng: nat -> nat, k: nat, t: (Option<Placement>, bool, nat))
    requires IsGrid(st.grid) && i < |ships| && Fits(ships) && st.fleet == ships[..i]
    requires t == TryShip(st.grid, ships[i].size, rng, k, 0)
    ensures t.1 ==> LayFrom(st, ships, i, rng, k) == (After(st, ships[i], t.0), false)
    ensures !t.1 ==> After(st, ships[i], t.0).fleet == ships[..i + 1]
    ensures !t.1 ==> LayFrom(st, ships, i, rng, k) == LayFrom(After(st, ships[i], t.0), ships, i + 1, rng, t.2)
  {
    PrefixStep(ships, i);
  }

  /** The first `i + 1` ships are the first `i` followed by ship `i`. */
  lemma PrefixStep<T>(ships: seq<T>, i: nat)
    requires i < |ships|
    ensures ships[..i + 1] == ships[..i] + [ships[i]]
  {
  }

  /** What `FillBoard(ships)` leaves behind with random source `rng`, and whether
      it laid every ship. */
  ghost function Fill(ships: seq<Ship>, rng: nat -> nat): (r: (FillState, bool))
    requires Fits(ships)
  {
    LayFrom(Cleared(), ships, 0, rng, 0)
  }

  /** A ship whose first drawn placement is accepted is laid there, and the fill
      goes on with the next ship three numbers further into the source. */
  lemma FirstDrawAccepted(st: FillState, ships: seq<Ship>, i: nat, rng: nat -> nat, k: nat)
    requires IsGrid(st.grid) && i < |ships| && Fits(ships) && st.fleet == ships[..i]
    requires CanPlace(st.grid, ships[i].size as int, Draw(rng, k, ships[i].size))
    ensures LayFrom(st, ships, i, rng, k) ==
      LayFrom(Lay(st, ships[i], Draw(rng, k, ships[i].size)), ships, i + 1, rng, k + DrawsPerAttempt)
  {
    PrefixStep(ships, i);
  }

  /** On the empty board, a placement is accepted exactly when all its cells are on the board. */
  lemma {:induction false} EmptyBoardAccepts(n: nat, pl: Placement)
    requires Room(pl, n)
    ensures CanPlace(EmptyGrid(), n, pl) <==> forall i :: 0 <= i < n ==> InRange(CellAt(pl, i))
  {
    forall c | InRange(c)
      ensures !HasShipNear(EmptyGrid(), c)
    {
      forall q | InRange(q)
        ensures Cell(EmptyGrid(), q) != ShipSlot
      {
      }
    }
  }

  /** With a source that always yields 0, a single one-cell ship is laid
      horizontally at A1 on the first attempt and the fill completes. */
  lemma SingleShipFillCompletes()
    ensures Fits([NewShip(1)])
    ensures Fill([NewShip(1)], k => 0).1
    ensures Fill([NewShip(1)], k => 0).0.fleet == [NewShip(1)]
    ensures Fill([NewShip(1)], k => 0).0.layout == [Placement(Position(0, 0), Horizontal)]
  {
    var rng: nat -> nat := k => 0;
    var pl := Draw(rng, 0, 1);
    assert pl == Placement(Position(0, 0), Horizontal);
    EmptyBoardAccepts(1, pl);
    FirstDrawAccepted(Cleared(), [NewShip(1)], 0, rng, 0);
  }
}
