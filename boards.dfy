/** The game board (game.go: `type Board [Rows][Cols]byte`, `At`, `Set`) and
    the value-level view of its contents that the specifications use. */
module Boards {
  import opened Types

  /** The contents of a board as a value: `g[row][col]` is the cell's byte. */
  type Grid = seq<seq<char>>

  predicate IsGrid(g: Grid) {
    |g| == Rows && forall r :: 0 <= r < Rows ==> |g[r]| == Cols
  }

  function Cell(g: Grid, p: Position): char
    requires IsGrid(g) && InRange(p)
  {
    g[p.row][p.col]
  }

  /** The grid with the one cell `p` replaced by `v`. */
  function Update(g: Grid, p: Position, v: char): (h: Grid)
    requires IsGrid(g) && InRange(p)
    ensures IsGrid(h)
    ensures Cell(h, p) == v
    ensures forall q :: InRange(q) && q != p ==> Cell(h, q) == Cell(g, q)
  {
    g[p.row := g[p.row][p.col := v]]
  }

  /** Every cell holds one of the four symbols of a filled board. */
  ghost predicate AllSymbols(g: Grid)
    requires IsGrid(g)
  {
    forall p :: InRange(p) ==> Cell(g, p) in {EmptySlot, ShipSlot, HitShipSlot, MissedSlot}
  }

  /** Two integers differ by at most one. */
  predicate Near(a: int, b: int) {
    -1 <= a - b <= 1
  }

  /** Chebyshev distance at most one: the 8-neighbourhood of a cell, the cell included. */
  predicate Adjacent(p: Position, q: Position) {
    Near(p.row as int, q.row as int) && Near(p.col as int, q.col as int)
  }

  /** Some cell of the board within Chebyshev distance one of `c` (or `c` itself)
      holds an intact ship. */
  ghost predicate HasShipNear(g: Grid, c: Position)
    requires IsGrid(g)
  {
    exists q :: InRange(q) && Adjacent(q, c) && Cell(g, q) == ShipSlot
  }

  class Board {
    const cells: array2<char>

    ghost predicate Valid() {
      cells.Length0 == Rows && cells.Length1 == Cols
    }

    /** The zero value of a Go `Board`: every byte is 0. */
    constructor ()
      ensures Valid() && fresh(cells)
      ensures forall p :: InRange(p) ==> At(p) == 0 as char
    {
      cells := new char[Rows, Cols]((r, c) => 0 as char);
    }

    /** The board's contents as a value. */
    ghost function Grid(): (g: Grid)
      requires Valid()
      reads cells
      ensures IsGrid(g)
    {
      seq(Rows, r requires 0 <= r < Rows reads cells =>
        seq(Cols, c requires 0 <= c < Cols reads cells => cells[r, c]))
    }

    function At(p: Position): (v: char)
      requires Valid() && InRange(p)
      reads cells
      ensures v == Cell(Grid(), p)
    {
      cells[p.row, p.col]
    }

    method Set(p: Position, v: char)
      requires Valid() && InRange(p)
      modifies cells
      ensures At(p) == v
      ensures forall q :: InRange(q) && q != p ==> At(q) == old(At(q))
      ensures Grid() == Update(old(Grid()), p, v)
    {
      cells[p.row, p.col] := v;
      GridExtensional(Grid(), Update(old(Grid()), p, v));
    }
  }

  /** Two grids that agree on every in-range cell are equal. */
  lemma GridExtensional(g: Grid, h: Grid)
    requires IsGrid(g) && IsGrid(h)
    requires forall p :: InRange(p) ==> Cell(g, p) == Cell(h, p)
    ensures g == h
  {
    forall r | 0 <= r < Rows
      ensures g[r] == h[r]
    {
      forall c | 0 <= c < Cols
        ensures g[r][c] == h[r][c]
      {
        assert Cell(g, Position(r as uint8, c as uint8)) == Cell(h, Position(r as uint8, c as uint8));
      }
    }
  }
}
