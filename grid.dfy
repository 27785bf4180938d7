/** The navigation grid: a fixed row-major array of cells covering the world,
    world <-> cell lookup, obstacle marking and 8-connected neighbours. */
module Grids {
  import opened Geometry
  import opened Cells
  import Obstacles

  /** Two grid positions are 8-neighbours: at most one step apart on each
      axis, and not the same position. */
  predicate Adjacent(r1: int, c1: int, r2: int, c2: int)
  {
    -1 <= r2 - r1 <= 1 && -1 <= c2 - c1 <= 1 && !(r1 == r2 && c1 == c2)
  }

  /** Position of (r2, c2) in the 3x3 block around (r1, c1), numbered in the
      order the neighbour loops visit it (dr outer, dc inner, both from -1). */
  function ScanIndex(r1: int, c1: int, r2: int, c2: int): int
  {
    (r2 - r1 + 1) * 3 + (c2 - c1 + 1)
  }

  /** Row and column offset probed at step k (0..8) of the neighbour scan:
      dr runs over -1, 0, 1 in the outer loop and dc in the inner one. */
  function ScanDr(k: int): int { if k < 3 then -1 else if k < 6 then 0 else 1 }

  function ScanDc(k: int): int { k - 3 * (ScanDr(k) + 1) - 1 }

  /** The cell's world coordinates are the centre of its square of side `cellSize`. */
  ghost predicate CentredIn(cell: GridCell, cellSize: real)
  {
    cell.worldX == cell.col as real * cellSize + cellSize / 2.0 &&
    cell.worldY == cell.row as real * cellSize + cellSize / 2.0
  }

  /** The inner loop of the grid constructor: fills row `r` with new cells
      centred in their squares, leaving the other rows as they were. */
  method FillRow(grid: array2<GridCell?>, r: int, cellSize: real, ghost made: set<GridCell>)
    returns (ghost made': set<GridCell>)
    requires 0 <= r < grid.Length0
    requires forall cell :: cell in made ==>
      0 <= cell.row < r && 0 <= cell.col < grid.Length1 && grid[cell.row, cell.col] == cell
    modifies grid
    ensures forall i, j :: 0 <= i < grid.Length0 && 0 <= j < grid.Length1 && i != r ==> grid[i, j] == old(grid[i, j])
    ensures forall j :: 0 <= j < grid.Length1 ==>
      grid[r, j] != null && grid[r, j].row == r && grid[r, j].col == j && grid[r, j] in made'
    ensures made <= made'
    ensures forall cell :: cell in made' ==>
      (cell in made || cell.row == r) && 0 <= cell.col < grid.Length1 && grid[cell.row, cell.col] == cell
    ensures fresh(made' - made)
    ensures forall cell :: cell in made' - made ==>
      cell.walkable && cell.obstacle == null && CentredIn(cell, cellSize)
  {
    made' := made;
    for c := 0 to grid.Length1
      invariant forall i, j :: 0 <= i < grid.Length0 && 0 <= j < grid.Length1 && i != r ==> grid[i, j] == old(grid[i, j])
      invariant forall j :: 0 <= j < c ==>
        grid[r, j] != null && grid[r, j].row == r && grid[r, j].col == j && grid[r, j] in made'
      invariant made <= made'
      invariant forall cell :: cell in made' ==>
        (cell in made || (cell.row == r && cell.col < c)) && 0 <= cell.col < grid.Length1 &&
        grid[cell.row, cell.col] == cell
      invariant fresh(made' - made)
      invariant forall cell :: cell in made' - made ==> cell.walkable && cell.obstacle == null
      invariant forall cell :: cell in made' - made ==> CentredIn(cell, cellSize)
    {
      var worldX := c as real * cellSize + cellSize / 2.0;
      var worldY := r as real * cellSize + cellSize / 2.0;
      var cell := new GridCell(r, c, worldX, worldY);
      grid[r, c] := cell;
      made' := made' + {cell};
    }
  }

  class Grid {
    const rows: int
    const cols: int
    const cellSize: real
    const cells: array2<GridCell?>
    /** All cells of the grid, fixed at construction. */
    ghost const AllCells: set<GridCell>

    /** Shape and coordinates: the array is rows x cols, every slot holds the
        cell whose row, column and world centre match its place. */
    ghost predicate Valid()
      reads this, cells
    {
      cellSize > 0.0 && cells.Length0 == rows && cells.Length1 == cols &&
      (forall r, c :: 0 <= r < rows && 0 <= c < cols ==>
        cells[r, c] != null && cells[r, c].row == r && cells[r, c].col == c &&
        cells[r, c] in AllCells) &&
      forall cell :: cell in AllCells ==>
        0 <= cell.row < rows && 0 <= cell.col < cols && cells[cell.row, cell.col] == cell
    }

    /** Every cell's world coordinates are the centre of its square. */
    ghost predicate Centred()
      reads this
    {
      forall cell :: cell in AllCells ==> CentredIn(cell, cellSize)
    }

    predicate InBounds(row: int, col: int)
    {
      0 <= row < rows && 0 <= col < cols
    }

    /** The obstacle bookkeeping invariant: a cell is walkable exactly when it
        holds no obstacle. */
    ghost predicate WalkableIffFree()
      reads this, cells, AllCells
    {
      forall cell :: cell in AllCells ==> (cell.walkable <==> cell.obstacle == null)
    }

    constructor (screenWidth: int, screenHeight: int, cellSize: real)
      requires screenWidth >= 0 && screenHeight >= 0 && cellSize > 0.0
      ensures Valid() && Centred() && WalkableIffFree()
      ensures this.cellSize == cellSize
      ensures cols == Ceil(screenWidth as real / cellSize)
      ensures rows == Ceil(screenHeight as real / cellSize)
      ensures fresh(cells)
      ensures fresh(AllCells)
      ensures forall cell :: cell in AllCells ==> cell.walkable && cell.obstacle == null
    {
      var numCols := Ceil(screenWidth as real / cellSize);
      var numRows := Ceil(screenHeight as real / cellSize);
      var grid := new GridCell?[numRows, numCols];
      ghost var made: set<GridCell> := {};
      for r := 0 to numRows
        invariant forall i, j :: 0 <= i < r && 0 <= j < numCols ==>
          grid[i, j] != null && grid[i, j].row == i && grid[i, j].col == j && grid[i, j] in made
        invariant forall cell :: cell in made ==>
          0 <= cell.row < r && 0 <= cell.col < numCols && grid[cell.row, cell.col] == cell
        invariant fresh(made)
        invariant forall cell :: cell in made ==> cell.walkable && cell.obstacle == null
        invariant forall cell :: cell in made ==> CentredIn(cell, cellSize)
      {
        made := FillRow(grid, r, cellSize, made);
      }
      this.cellSize := cellSize;
      cols, rows := numCols, numRows;
      cells := grid;
      AllCells := made;
    }

    /** Bounds-checked lookup by row and column. */
    function CellAtGridPos(row: int, col: int): (cell: GridCell?)
      reads this, cells
      requires Valid()
      ensures cell != null <==> InBounds(row, col)
      ensures cell != null ==> cell in AllCells && cell.row == row && cell.col == col
    {
      if InBounds(row, col) then cells[row, col] else null
    }

    /** Lookup by world position: each coordinate is divided by the cell size
        and truncated toward zero, then bounds-checked. */
    function CellAtWorldPos(x: real, y: real): (cell: GridCell?)
      reads this, cells
      requires Valid()
      ensures cell != null <==> InBounds(Trunc(y / cellSize), Trunc(x / cellSize))
      ensures cell != null ==>
        cell in AllCells && cell.row == Trunc(y / cellSize) && cell.col == Trunc(x / cellSize)
    {
      CellAtGridPos(Trunc(y / cellSize), Trunc(x / cellSize))
    }

    /** The objects `SetObstacle` and `RemoveObstacle` may change for an
        obstacle centred at `p`: the one cell under that point, if any. */
    ghost function CellUnder(p: Vec): set<object>
      reads this, cells
      requires Valid()
    {
      var cell := CellAtWorldPos(p.x, p.y);
      if cell == null then {} else {cell}
    }

    /** Marks the cell under the obstacle's centre as blocked by it; every
        other cell, and that cell's search fields, are left as they were. */
    method SetObstacle(obstacle: Obstacles.Obstacle)
      requires Valid()
      modifies CellUnder(obstacle.position)
      ensures var cell := CellAtWorldPos(obstacle.position.x, obstacle.position.y);
        cell != null ==> !cell.walkable && cell.obstacle == obstacle
      ensures var cell := CellAtWorldPos(obstacle.position.x, obstacle.position.y);
        cell != null ==> cell.parent == old(cell.parent) && cell.gCost == old(cell.gCost) && cell.hCost == old(cell.hCost)
      ensures forall other :: other in AllCells && other !in CellUnder(obstacle.position) ==>
        other.walkable == old(other.walkable) && other.obstacle == old(other.obstacle)
      ensures old(WalkableIffFree()) ==> WalkableIffFree()
    {
      var cell := CellAtWorldPos(obstacle.position.x, obstacle.position.y);
      if cell != null {
        cell.walkable := false;
        cell.obstacle := obstacle;
      }
    }

    /** Clears the cell under the obstacle's centre, whichever obstacle it held. */
    method RemoveObstacle(obstacle: Obstacles.Obstacle)
      requires Valid()
      modifies CellUnder(obstacle.position)
      ensures var cell := CellAtWorldPos(obstacle.position.x, obstacle.position.y);
        cell != null ==> cell.walkable && cell.obstacle == null
      ensures var cell := CellAtWorldPos(obstacle.position.x, obstacle.position.y);
        cell != null ==> cell.parent == old(cell.parent) && cell.gCost == old(cell.gCost) && cell.hCost == old(cell.hCost)
      ensures forall other :: other in AllCells && other !in CellUnder(obstacle.position) ==>
        other.walkable == old(other.walkable) && other.obstacle == old(other.obstacle)
      ensures old(WalkableIffFree()) ==> WalkableIffFree()
    {
      var cell := CellAtWorldPos(obstacle.position.x, obstacle.position.y);
      if cell != null {
        cell.walkable := true;
        cell.obstacle := null;
      }
    }

    /** What the neighbour scan contributes at step `k` of the 3x3 block around
        (row, col): the cell there if it exists, is walkable and is not the
        centre. */
    ghost function Probe(row: int, col: int, k: int): seq<GridCell>
      reads this, cells, AllCells
      requires Valid() && 0 <= k < 9
    {
      var r, c := row + ScanDr(k), col + ScanDc(k);
      if k == 4 || !InBounds(r, c) then []
      else if cells[r, c].walkable then [cells[r, c]]
      else []
    }

    /** The neighbours collected by the first `k` steps of the scan. */
    ghost function Scan(row: int, col: int, k: int): seq<GridCell>
      reads this, cells, AllCells
      requires Valid() && 0 <= k <= 9
    {
      if k == 0 then [] else Scan(row, col, k - 1) + Probe(row, col, k - 1)
    }

    /** The walkable 8-neighbours of (row, col), in scan order. */
    ghost function NeighborsOf(row: int, col: int): seq<GridCell>
      reads this, cells, AllCells
      requires Valid()
    {
      Scan(row, col, 9)
    }

    /** `getNeighbors`: the double loop over (dr, dc) in {-1, 0, 1}^2. */
    method GetNeighbors(cell: GridCell) returns (neighbors: seq<GridCell>)
      requires Valid()
      ensures neighbors == NeighborsOf(cell.row, cell.col)
    {
      neighbors := [];
      for dr := -1 to 2
        invariant neighbors == Scan(cell.row, cell.col, 3 * (dr + 1))
      {
        neighbors := VisitRow(cell.row, cell.col, dr, neighbors);
      }
    }

    /** The inner loop of `getNeighbors`: the three offsets of row `dr`. */
    method VisitRow(row: int, col: int, dr: int, neighbors: seq<GridCell>) returns (result: seq<GridCell>)
      requires Valid() && -1 <= dr <= 1
      requires neighbors == Scan(row, col, 3 * (dr + 1))
      ensures result == Scan(row, col, 3 * (dr + 1) + 3)
    {
      result := neighbors;
      for dc := -1 to 2
        invariant result == Scan(row, col, 3 * (dr + 1) + (dc + 1))
      {
        result := Visit(row, col, dr, dc, result);
      }
    }

    /** The body of `getNeighbors`' inner loop: skip the centre, and keep
        the cell at offset (dr, dc) when it is inside the grid and walkable. */
    method Visit(row: int, col: int, dr: int, dc: int, neighbors: seq<GridCell>) returns (result: seq<GridCell>)
      requires Valid() && -1 <= dr <= 1 && -1 <= dc <= 1
      requires neighbors == Scan(row, col, 3 * (dr + 1) + (dc + 1))
      ensures result == Scan(row, col, 3 * (dr + 1) + (dc + 1) + 1)
    {
      ScanNext(this, row, col, dr, dc);
      result := neighbors;
      if dr == 0 && dc == 0 {
        return;
      }
      var newRow := row + dr;
      var newCol := col + dc;
      if newRow >= 0 && newRow < rows && newCol >= 0 && newCol < cols {
        var neighbor := cells[newRow, newCol];
        if neighbor.walkable {
          result := neighbors + [neighbor];
        }
      }
    }
  }

  /** One step of the scan, phrased with the loops' own (dr, dc). */
  lemma ScanNext(g: Grid, row: int, col: int, dr: int, dc: int)
    requires g.Valid() && -1 <= dr <= 1 && -1 <= dc <= 1
    ensures g.Scan(row, col, 3 * (dr + 1) + (dc + 1) + 1) ==
      g.Scan(row, col, 3 * (dr + 1) + (dc + 1)) +
      if (dr == 0 && dc == 0) || !g.InBounds(row + dr, col + dc) then []
      else if g.cells[row + dr, col + dc].walkable then [g.cells[row + dr, col + dc] as GridCell]
      else []
  {
  }

  /** Cells are identified by their coordinates: a grid cell sits at its own
      row and column, so two grid cells with equal coordinates are the same. */
  lemma CellSetMembership(g: Grid, cell: GridCell)
    requires g.Valid()
    ensures cell in g.AllCells <==> g.InBounds(cell.row, cell.col) && g.cells[cell.row, cell.col] == cell
  {
    if g.InBounds(cell.row, cell.col) && g.cells[cell.row, cell.col] == cell {
      assert g.cells[cell.row, cell.col] in g.AllCells;
    }
  }

  /** `equals` on grid cells coincides with identity. */
  lemma EqualsIsIdentity(g: Grid, a: GridCell, b: GridCell)
    requires g.Valid() && a in g.AllCells && b in g.AllCells
    ensures a.Equals(b) <==> a == b
  {
    CellSetMembership(g, a);
    CellSetMembership(g, b);
  }

  /** The cell probed at step `k` sits at scan index `k`, one step away. */
  lemma ProbeOffset(k: int)
    requires 0 <= k < 9
    ensures -1 <= ScanDr(k) <= 1 && -1 <= ScanDc(k) <= 1
    ensures 3 * (ScanDr(k) + 1) + (ScanDc(k) + 1) == k
    ensures ScanDr(k) == 0 && ScanDc(k) == 0 <==> k == 4
  {
  }

  /** The first `k` steps of the scan collect only walkable in-bounds
      8-neighbours, with scan index below `k`, and never the centre. */
  lemma {:induction false} ScanSound(g: Grid, row: int, col: int, k: int)
    requires g.Valid() && 0 <= k <= 9
    ensures var s := g.Scan(row, col, k);
      |s| <= (if k > 4 then k - 1 else k) &&
      forall i :: 0 <= i < |s| ==>
        s[i] in g.AllCells && s[i].walkable && Adjacent(row, col, s[i].row, s[i].col) &&
        ScanIndex(row, col, s[i].row, s[i].col) < k
  {
    if k > 0 {
      ScanSound(g, row, col, k - 1);
      ProbeOffset(k - 1);
    }
  }

  /** The scan visits cells in strictly increasing scan index, so it never
      collects a cell twice. */
  lemma {:induction false} ScanOrdered(g: Grid, row: int, col: int, k: int)
    requires g.Valid() && 0 <= k <= 9
    ensures var s := g.Scan(row, col, k);
      forall i, j :: 0 <= i < j < |s| ==>
        ScanIndex(row, col, s[i].row, s[i].col) < ScanIndex(row, col, s[j].row, s[j].col)
  {
    if k > 0 {
      ScanOrdered(g, row, col, k - 1);
      ScanSound(g, row, col, k - 1);
      ProbeOffset(k - 1);
    }
  }

  /** Every walkable in-bounds 8-neighbour with scan index below `k` has been
      collected after `k` steps. */
  lemma {:induction false} ScanComplete(g: Grid, row: int, col: int, k: int)
    requires g.Valid() && 0 <= k <= 9
    ensures forall r, c ::
      (g.InBounds(r, c) && Adjacent(row, col, r, c) && ScanIndex(row, col, r, c) < k &&
       g.cells[r, c].walkable) ==> g.cells[r, c] in g.Scan(row, col, k)
  {
    if k > 0 {
      ScanComplete(g, row, col, k - 1);
      ProbeOffset(k - 1);
      forall r, c | g.InBounds(r, c) && Adjacent(row, col, r, c) &&
        ScanIndex(row, col, r, c) == k - 1 && g.cells[r, c].walkable
        ensures g.cells[r, c] in g.Scan(row, col, k)
      {
        assert r - row == ScanDr(k - 1) && c - col == ScanDc(k - 1);
      }
    }
  }

  /** `getNeighbors` yields at most 8 distinct cells, each a walkable
      8-neighbour of (row, col), and every walkable 8-neighbour in the grid. */
  lemma NeighborsCharacterized(g: Grid, row: int, col: int)
    requires g.Valid()
    ensures |g.NeighborsOf(row, col)| <= 8
    ensures forall n :: n in g.NeighborsOf(row, col) <==>
      n in g.AllCells && n.walkable && Adjacent(row, col, n.row, n.col)
    ensures forall i :: 0 <= i < |g.NeighborsOf(row, col)| ==>
      g.NeighborsOf(row, col)[i] in g.AllCells && g.NeighborsOf(row, col)[i].walkable &&
      Adjacent(row, col, g.NeighborsOf(row, col)[i].row, g.NeighborsOf(row, col)[i].col)
    ensures forall i, j :: 0 <= i < j < |g.NeighborsOf(row, col)| ==>
      g.NeighborsOf(row, col)[i] != g.NeighborsOf(row, col)[j]
  {
    ScanSound(g, row, col, 9);
    ScanOrdered(g, row, col, 9);
    ScanComplete(g, row, col, 9);
    var s := g.NeighborsOf(row, col);
    forall n | n in g.AllCells && n.walkable && Adjacent(row, col, n.row, n.col)
      ensures n in s
    {
      assert g.cells[n.row, n.col] == n;
    }
  }

  /** A grid cell is never among its own neighbours. */
  lemma NotOwnNeighbor(g: Grid, cell: GridCell)
    requires g.Valid()
    ensures cell !in g.NeighborsOf(cell.row, cell.col)
  {
    NeighborsCharacterized(g, cell.row, cell.col);
  }

  /** Looking up a cell's own world centre finds that cell. */
  lemma CentreLookup(g: Grid, cell: GridCell)
    requires g.Valid() && g.Centred() && cell in g.AllCells
    ensures g.CellAtWorldPos(cell.worldX, cell.worldY) == cell
  {
    CellSetMembership(g, cell);
    var s := g.cellSize;
    assert CentredIn(cell, s);
    DivideExactly(cell.worldX, cell.col as real + 0.5, s);
    DivideExactly(cell.worldY, cell.row as real + 0.5, s);
    TruncOfHalf(cell.col);
    TruncOfHalf(cell.row);
  }

  /** Truncation toward zero: a coordinate strictly within one cell size of 0
      on either side maps to index 0, so the strip just left of (or above) the
      grid still resolves to column (row) 0. */
  lemma NearZeroMapsToZero(g: Grid, v: real)
    requires g.Valid() && -g.cellSize < v < g.cellSize
    ensures Trunc(v / g.cellSize) == 0
  {
    QuotientBounds(v, g.cellSize);
    var n := Trunc(v / g.cellSize);
    assert n as real < 1.0 && n as real > -1.0;
  }

  lemma QuotientBounds(v: real, s: real)
    requires s > 0.0 && -s < v < s
    ensures -1.0 < v / s < 1.0
  {
    var q := v / s;
    assert q * s == v;
    assert (1.0 - q) * s == s - v;
    assert (q + 1.0) * s == v + s;
    SignOfProduct(1.0 - q, s);
    SignOfProduct(q + 1.0, s);
  }

  lemma SignOfProduct(a: real, s: real)
    requires s > 0.0 && a * s > 0.0
    ensures a > 0.0
  {
  }

  lemma TruncOfHalf(n: int)
    requires n >= 0
    ensures Trunc(n as real + 0.5) == n
  {
  }

  lemma DivideExactly(a: real, q: real, s: real)
    requires s > 0.0 && a == q * s
    ensures a / s == q
  {
  }
}
