/** One square of the navigation grid. Its identity is its (row, col) pair;
    the remaining mutable fields are written by the grid (walkable, obstacle)
    and by the path search (parent, gCost, hCost). */
module Cells {
  import Obstacles

  /** Java's 32-bit two's-complement wrap-around of an int expression. */
  function Wrap32(v: int): (w: int)
    ensures -0x8000_0000 <= w < 0x8000_0000
    ensures (w - v) % 0x1_0000_0000 == 0
  {
    var m := v % 0x1_0000_0000;
    if m >= 0x8000_0000 then m - 0x1_0000_0000 else m
  }

  class GridCell {
    const row: int
    const col: int
    const worldX: real
    const worldY: real
    var walkable: bool
    var obstacle: Obstacles.Obstacle?
    var parent: GridCell?
    var gCost: real
    var hCost: real

    constructor (row: int, col: int, worldX: real, worldY: real)
      ensures this.row == row && this.col == col
      ensures this.worldX == worldX && this.worldY == worldY
      ensures walkable && obstacle == null
      ensures parent == null && gCost == 0.0 && hCost == 0.0
    {
      this.row, this.col := row, col;
      this.worldX, this.worldY := worldX, worldY;
      walkable := true;
      obstacle := null;
      parent := null;
      gCost, hCost := 0.0, 0.0;
    }

    /** Estimated total cost through this cell. */
    function FCost(): (f: real)
      reads this
      ensures gCost >= 0.0 && hCost >= 0.0 ==> f >= gCost && f >= hCost
    {
      gCost + hCost
    }

    /** `equals`: another cell (never null) at the same row and column.
        Java's identity shortcut is subsumed: a cell equals itself. Equal
        cells hash alike. */
    predicate Equals(other: GridCell?): (b: bool)
      ensures other == this ==> b
      ensures other == null ==> !b
      ensures b ==> other != null && other.row == row && other.col == col && other.HashCode() == HashCode()
    {
      other != null && row == other.row && col == other.col
    }

    /** `Objects.hash(row, col)`, that is 31 * (31 + row) + col in 32-bit arithmetic. */
    function HashCode(): (h: int)
      ensures -0x8000_0000 <= h < 0x8000_0000
    {
      Wrap32(31 * Wrap32(31 + row) + col)
    }
  }

  /** Equality of cells is an equivalence relation. */
  lemma EqualsIsEquivalence(a: GridCell, b: GridCell, c: GridCell)
    ensures a.Equals(a)
    ensures a.Equals(b) ==> b.Equals(a)
    ensures a.Equals(b) && b.Equals(c) ==> a.Equals(c)
  {
  }

  /** Equal cells hash alike, as a HashSet of cells requires. */
  lemma EqualCellsHashAlike(a: GridCell, b: GridCell)
    requires a.Equals(b)
    ensures a.HashCode() == b.HashCode()
  {
  }
}
