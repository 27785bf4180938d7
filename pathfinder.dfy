/** The A* search over the grid: an open list, a closed set, parent pointers
    written on the shared grid cells, and a final retrace of the parent chain.
    Cells are compared by identity: for cells of one grid that is exactly the
    source's `equals`/`hashCode` by (row, col) (see `Grids.EqualsIsIdentity`). */
module Pathfinding {
  import opened Cells
  import opened Grids
  import opened Obstacles

  /** Squared Euclidean distance between two cells in grid units. */
  function SquaredDistance(a: GridCell, b: GridCell): (d: int)
    ensures d >= 0
    ensures d == 0 <==> a.row == b.row && a.col == b.col
  {
    var dx := a.col - b.col;
    var dy := a.row - b.row;
    dx * dx + dy * dy
  }

  /** `getDistance`: the square root (supplied as `root`) of the squared
      distance. */
  function Distance(a: GridCell, b: GridCell, root: int -> real): (d: real)
    ensures IsSquareRoot(root) ==> d >= 0.0 && d * d == SquaredDistance(a, b) as real
  {
    root(SquaredDistance(a, b))
  }

  /** `root` is a square root on the values it is applied to (the first
      conjunct follows from the second; it is stated because the solver does
      not derive it). */
  ghost predicate IsSquareRoot(root: int -> real)
  {
    root(0) == 0.0 &&
    forall n :: n >= 0 ==> root(n) >= 0.0 && root(n) * root(n) == n as real
  }

  lemma DistanceSymmetric(a: GridCell, b: GridCell, root: int -> real)
    ensures Distance(a, b, root) == Distance(b, a, root)
  {
    var dx, dy := a.col - b.col, a.row - b.row;
    assert dx * dx == (-dx) * (-dx) && dy * dy == (-dy) * (-dy);
  }

  /** With a true square root, the distance is zero exactly for cells at the
      same place, and its square is the squared distance. */
  lemma DistanceOfSquareRoot(a: GridCell, b: GridCell, root: int -> real)
    requires IsSquareRoot(root)
    ensures Distance(a, b, root) >= 0.0
    ensures Distance(a, b, root) * Distance(a, b, root) == SquaredDistance(a, b) as real
    ensures Distance(a, b, root) == 0.0 <==> a.row == b.row && a.col == b.col
  {
    var d := SquaredDistance(a, b);
    assert root(d) >= 0.0 && root(d) * root(d) == d as real;
  }

  /** One grid step costs 1 orthogonally and 2 diagonally, squared. */
  lemma StepCost(a: GridCell, b: GridCell)
    requires Adjacent(a.row, a.col, b.row, b.col)
    ensures a.row == b.row || a.col == b.col ==> SquaredDistance(a, b) == 1
    ensures a.row != b.row && a.col != b.col ==> SquaredDistance(a, b) == 2
  {
    var dx, dy := a.col - b.col, a.row - b.row;
    assert dx == -1 || dx == 0 || dx == 1;
    assert dy == -1 || dy == 0 || dy == 1;
  }

  /** The selection test of the open-list scan: `a` replaces `b` when its
      f-cost is lower, or within 0.001 of it with a lower h-cost. */
  predicate Beats(a: GridCell, b: GridCell)
    reads a, b
  {
    a.FCost() < b.FCost() ||
    (Abs(a.FCost() - b.FCost()) < 0.001 && a.hCost < b.hCost)
  }

  function Abs(v: real): real { if v < 0.0 then -v else v }

  /** The scan for the open cell with the lowest f-cost. Because of the 0.001
      tolerance the winner need not have the least f-cost; its f-cost exceeds
      that of the cell at position j by less than 0.001 for each later cell
      the scan still had to pass, and no later cell beats it. */
  method LowestFCost(open: seq<GridCell>) returns (i: int)
    requires |open| > 0
    ensures 0 <= i < |open|
    ensures forall j :: 0 <= j < |open| ==>
      open[i].FCost() <= open[j].FCost() + 0.001 * (|open| - 1 - j) as real
    ensures forall j :: i < j < |open| ==> !Beats(open[j], open[i])
  {
    i := 0;
    for k := 0 to |open|
      invariant 0 <= i < |open| && i <= k
      invariant forall j :: 0 <= j < k ==>
        open[i].FCost() <= open[j].FCost() + 0.001 * (k - 1 - j) as real
      invariant forall j :: i < j < k ==> !Beats(open[j], open[i])
    {
      if Beats(open[k], open[i]) {
        i := k;
      }
    }
  }

  /** `Collections.reverse` on a copy. */
  function Reverse<T>(s: seq<T>): (r: seq<T>)
    ensures |r| == |s|
    ensures forall i :: 0 <= i < |s| ==> r[i] == s[|s| - 1 - i]
  {
    if s == [] then [] else Reverse(s[1..]) + [s[0]]
  }

  /** The grid positions of a sequence of cells. */
  function Positions(s: seq<GridCell>): (p: seq<(int, int)>)
    ensures |p| == |s|
    ensures forall i :: 0 <= i < |s| ==> p[i] == (s[i].row, s[i].col)
  {
    seq(|s|, i requires 0 <= i < |s| => (s[i].row, s[i].col))
  }

  /** A walk through the grid: positions inside the grid, consecutive ones
      8-neighbours, and every cell after the first walkable. */
  ghost predicate Walk(g: Grid, p: seq<(int, int)>)
    reads g, g.cells, g.AllCells
    requires g.Valid()
  {
    (forall i :: 0 <= i < |p| ==> g.InBounds(p[i].0, p[i].1)) &&
    forall i :: 0 < i < |p| ==>
      Adjacent(p[i - 1].0, p[i - 1].1, p[i].0, p[i].1) && g.cells[p[i].0, p[i].1].walkable
  }

  /** `target` can be reached from `start` through walkable cells. */
  ghost predicate Reachable(g: Grid, start: GridCell, target: GridCell)
    reads g, g.cells, g.AllCells
    requires g.Valid()
  {
    exists p :: Walk(g, p) && |p| > 0 && p[0] == (start.row, start.col) &&
      p[|p| - 1] == (target.row, target.col)
  }

  /** `W` is the set of walkable cells of the grid. The search never changes
      walkability, so its bookkeeping is stated against this snapshot. */
  ghost predicate Walkables(g: Grid, W: set<GridCell>)
    reads g.AllCells
  {
    W <= g.AllCells && forall c :: c in g.AllCells ==> (c.walkable <==> c in W)
  }

  /** A snapshot of the cells' search-relevant fields: `W` is the set of
      walkable cells, `Ob` the obstacle and `P` the parent pointer of each. */
  ghost predicate CellState(g: Grid, W: set<GridCell>, Ob: map<GridCell, Obstacle?>, P: map<GridCell, GridCell?>)
    reads g.AllCells
  {
    W <= g.AllCells && Ob.Keys == g.AllCells && P.Keys == g.AllCells &&
    forall c :: c in g.AllCells ==> (c.walkable <==> c in W) && c.obstacle == Ob[c] && c.parent == P[c]
  }

  /** The parent pointers of closed cells: every closed cell but `start` is
      walkable and points to a neighbouring cell that was closed earlier
      (`order` numbers the closed cells in closing order). */
  ghost predicate ParentChain(g: Grid, start: GridCell, closed: set<GridCell>, order: map<GridCell, nat>,
                              W: set<GridCell>, P: map<GridCell, GridCell?>)
  {
    closed <= g.AllCells && P.Keys == g.AllCells && order.Keys == closed &&
    forall c {:trigger P[c]} :: c in closed && c != start ==>
      c in W && P[c] != null && P[c] in closed && order[P[c]] < order[c] &&
      Adjacent(P[c].row, P[c].col, c.row, c.col)
  }

  /** The open list holds distinct grid cells, none of them closed. */
  ghost predicate OpenList(g: Grid, open: seq<GridCell>, closed: set<GridCell>)
  {
    (forall i :: 0 <= i < |open| ==> open[i] in g.AllCells && open[i] !in closed) &&
    forall i, j :: 0 <= i < j < |open| ==> open[i] != open[j]
  }

  /** Every open cell but `start` is walkable and has a closed neighbour as
      parent. */
  ghost predicate OpenParents(g: Grid, start: GridCell, open: seq<GridCell>, closed: set<GridCell>,
                              W: set<GridCell>, P: map<GridCell, GridCell?>)
    requires OpenList(g, open, closed) && P.Keys == g.AllCells
  {
    forall i :: 0 <= i < |open| && open[i] != start ==>
      open[i] in W && P[open[i]] != null && P[open[i]] in closed &&
      Adjacent(P[open[i]].row, P[open[i]].col, open[i].row, open[i].col)
  }

  /** The closing numbers handed out so far are below the number of closed cells. */
  ghost predicate Numbered(closed: set<GridCell>, order: map<GridCell, nat>)
  {
    forall c :: c in closed && c in order ==> order[c] < |closed|
  }

  /** The bookkeeping the main loop keeps between iterations. */
  ghost predicate SearchState(g: Grid, start: GridCell, open: seq<GridCell>, closed: set<GridCell>,
                              order: map<GridCell, nat>, W: set<GridCell>, P: map<GridCell, GridCell?>)
  {
    start in g.AllCells && ParentChain(g, start, closed, order, W, P) && P[start] == null &&
    Numbered(closed, order) &&
    (closed == {} ==> open == [start]) &&
    (closed != {} ==> start in closed) &&
    OpenList(g, open, closed) && OpenParents(g, start, open, closed, W, P)
  }

  /** Every walkable neighbour of a cell of `done` has been discovered. */
  ghost predicate Discovered(open: seq<GridCell>, closed: set<GridCell>, done: set<GridCell>, W: set<GridCell>)
  {
    forall c, n {:trigger Adjacent(c.row, c.col, n.row, n.col)} ::
      c in done && n in W && Adjacent(c.row, c.col, n.row, n.col) ==>
      n in closed || n in open
  }

  /** The walkable/obstacle state of every cell is as it was in `old`. */
  twostate predicate CellsUnchanged(g: Grid)
    reads g.AllCells
  {
    forall c :: c in g.AllCells ==> c.walkable == old(c.walkable) && c.obstacle == old(c.obstacle)
  }

  /** The reset loop: clears the search fields of every cell of the grid. */
  method ResetCosts(g: Grid)
    requires g.Valid()
    modifies g.AllCells
    ensures forall c :: c in g.AllCells ==> c.gCost == 0.0 && c.hCost == 0.0 && c.parent == null
    ensures CellsUnchanged(g)
  {
    for r := 0 to g.rows
      invariant forall c :: c in g.AllCells && c.row < r ==>
        c.gCost == 0.0 && c.hCost == 0.0 && c.parent == null
      invariant CellsUnchanged(g)
    {
      for c := 0 to g.cols
        invariant forall cell :: cell in g.AllCells && (cell.row < r || (cell.row == r && cell.col < c)) ==>
          cell.gCost == 0.0 && cell.hCost == 0.0 && cell.parent == null
        invariant CellsUnchanged(g)
      {
        var cell := g.CellAtGridPos(r, c);
        if cell != null {
          cell.gCost := 0.0;
          cell.hCost := 0.0;
          cell.parent := null;
        }
      }
    }
  }

  /** The neighbour loop of one iteration: every walkable neighbour of
      `current` that is not closed is discovered, and gets `current` as
      parent when it is new or when the route through `current` is cheaper.
      `P` and `P'` are the parent pointers before and after. */
  method RelaxNeighbors(g: Grid, start: GridCell, target: GridCell, current: GridCell,
                        open: seq<GridCell>, closed: set<GridCell>, ghost order: map<GridCell, nat>,
                        root: int -> real, ghost W: set<GridCell>, ghost Ob: map<GridCell, Obstacle?>,
                        ghost P: map<GridCell, GridCell?>)
    returns (open': seq<GridCell>, ghost P': map<GridCell, GridCell?>)
    requires g.Valid() && current in closed && CellState(g, W, Ob, P)
    requires SearchState(g, start, open, closed, order, W, P)
    requires Discovered(open, closed, closed - {current}, W)
    modifies g.AllCells
    ensures SearchState(g, start, open', closed, order, W, P')
    ensures Discovered(open', closed, closed, W)
    ensures CellState(g, W, Ob, P')
  {
    var neighbors := g.GetNeighbors(current);
    NeighborListOf(g, current, W);
    open', P' := open, P;
    for j := 0 to |neighbors|
      invariant CellState(g, W, Ob, P')
      invariant SearchState(g, start, open', closed, order, W, P')
      invariant Covered(neighbors, j, open, open', closed)
    {
      var neighbor := neighbors[j];
      ghost var open0, P0 := open', P';
      ghost var reparented;
      open', reparented, P' := Relax(g, current, neighbor, target, open', closed, root, W, Ob, P');
      RelaxKeepsState(g, start, current, neighbor, open0, open', closed, order, W, P0, P', reparented);
      CoveredStep(neighbors, j, open, open0, open', closed);
    }
    AllNeighborsDiscovered(current, neighbors, open, open', closed, W);
  }

  /** `neighbors` lists exactly the walkable 8-neighbours of `current`. */
  ghost predicate NeighborList(current: GridCell, neighbors: seq<GridCell>, W: set<GridCell>)
  {
    (forall k :: 0 <= k < |neighbors| ==>
      neighbors[k] in W && Adjacent(current.row, current.col, neighbors[k].row, neighbors[k].col)) &&
    forall n :: n in W && Adjacent(current.row, current.col, n.row, n.col) ==> n in neighbors
  }

  /** `getNeighbors` lists exactly the walkable 8-neighbours. */
  lemma NeighborListOf(g: Grid, current: GridCell, W: set<GridCell>)
    requires g.Valid() && Walkables(g, W)
    ensures NeighborList(current, g.NeighborsOf(current.row, current.col), W)
  {
    NeighborsCharacterized(g, current.row, current.col);
  }

  /** The first `j` neighbours have been handled: each is closed or open, and
      the open list only grew at its end. */
  ghost predicate Covered(neighbors: seq<GridCell>, j: int, open: seq<GridCell>, open': seq<GridCell>,
                          closed: set<GridCell>)
  {
    open <= open' && forall k :: 0 <= k < j && k < |neighbors| ==> neighbors[k] in closed || neighbors[k] in open'
  }

  lemma CoveredStep(neighbors: seq<GridCell>, j: int, open: seq<GridCell>, open0: seq<GridCell>,
                    open1: seq<GridCell>, closed: set<GridCell>)
    requires 0 <= j < |neighbors|
    requires Covered(neighbors, j, open, open0, closed)
    requires open0 <= open1 && (neighbors[j] in closed || neighbors[j] in open1)
    ensures Covered(neighbors, j + 1, open, open1, closed)
  {
    forall k | 0 <= k < j && neighbors[k] !in closed
      ensures neighbors[k] in open1
    {
      var i :| 0 <= i < |open0| && open0[i] == neighbors[k];
      assert open1[i] == neighbors[k];
    }
  }

  /** Once every listed neighbour of `current` is open or closed, `current`'s
      neighbourhood is discovered too, and cells discovered before stay so. */
  lemma AllNeighborsDiscovered(current: GridCell, neighbors: seq<GridCell>,
                               open: seq<GridCell>, open': seq<GridCell>, closed: set<GridCell>, W: set<GridCell>)
    requires current in closed
    requires Discovered(open, closed, closed - {current}, W)
    requires NeighborList(current, neighbors, W)
    requires Covered(neighbors, |neighbors|, open, open', closed)
    ensures Discovered(open', closed, closed, W)
  {
    forall c, n | c in closed && n in W && Adjacent(c.row, c.col, n.row, n.col)
      ensures n in closed || n in open'
    {
      if c == current {
        assert n in neighbors;
      } else if n !in closed {
        var i :| 0 <= i < |open| && open[i] == n;
        assert open'[i] == n;
      }
    }
  }

  /** The body of the neighbour loop for one neighbour: a closed neighbour is
      skipped; otherwise, when it is not yet open or the route through
      `current` is cheaper, its costs and parent are set (`reparented`) and
      it is opened if it was not open already. */
  method Relax(g: Grid, current: GridCell, neighbor: GridCell, target: GridCell,
               open: seq<GridCell>, closed: set<GridCell>, root: int -> real,
               ghost W: set<GridCell>, ghost Ob: map<GridCell, Obstacle?>, ghost P: map<GridCell, GridCell?>)
    returns (open': seq<GridCell>, ghost reparented: bool, ghost P': map<GridCell, GridCell?>)
    requires neighbor in g.AllCells && CellState(g, W, Ob, P)
    modifies neighbor
    ensures CellState(g, W, Ob, P')
    ensures P' == if reparented then P[neighbor := current] else P
    ensures reparented ==> (neighbor !in closed && neighbor.parent == current &&
      neighbor.gCost == old(current.gCost) + Distance(current, neighbor, root) &&
      neighbor.hCost == Distance(neighbor, target, root) &&
      open' == if neighbor in open then open else open + [neighbor])
    ensures !reparented ==> ((neighbor in closed || neighbor in open) && open' == open && unchanged(neighbor))
  {
    open', P' := open, P;
    reparented := false;
    if neighbor in closed {
      return;
    }
    var newCostToNeighbor := current.gCost + Distance(current, neighbor, root);
    if newCostToNeighbor < neighbor.gCost || neighbor !in open' {
      reparented := true;
      P' := P[neighbor := current];
      neighbor.gCost := newCostToNeighbor;
      neighbor.hCost := Distance(neighbor, target, root);
      neighbor.parent := current;
      if neighbor !in open' {
        open' := open' + [neighbor];
      }
    }
  }

  /** One step of the neighbour loop keeps the search bookkeeping: a cell
      that is re-parented gets a closed neighbour as parent and ends up open;
      every other parent pointer is as before. */
  lemma RelaxKeepsState(g: Grid, start: GridCell, current: GridCell, n: GridCell,
                        open0: seq<GridCell>, open1: seq<GridCell>, closed: set<GridCell>,
                        order: map<GridCell, nat>, W: set<GridCell>,
                        P0: map<GridCell, GridCell?>, P1: map<GridCell, GridCell?>, reparented: bool)
    requires SearchState(g, start, open0, closed, order, W, P0)
    requires current in closed && n in g.AllCells && n in W && Adjacent(current.row, current.col, n.row, n.col)
    requires reparented ==> (n !in closed && P1 == P0[n := current] &&
      open1 == if n in open0 then open0 else open0 + [n])
    requires !reparented ==> ((n in closed || n in open0) && open1 == open0 && P1 == P0)
    ensures SearchState(g, start, open1, closed, order, W, P1)
    ensures open0 <= open1
    ensures n in closed || n in open1
  {
    if reparented {
      assert n != start;
      forall i | 0 <= i < |open1| && open1[i] != start
        ensures open1[i] in W && P1[open1[i]] != null && P1[open1[i]] in closed &&
          Adjacent(P1[open1[i]].row, P1[open1[i]].col, open1[i].row, open1[i].col)
      {
        if open1[i] != n {
          assert open1[i] in open0;
        }
      }
    }
  }

  /** `retracePath`: follows parent pointers from `end` back to `start`,
      then reverses. The result leads from a neighbour of `start` to `end`
      and never contains `start`. */
  method RetracePath(g: Grid, start: GridCell, end: GridCell,
                     ghost closed: set<GridCell>, ghost order: map<GridCell, nat>,
                     ghost W: set<GridCell>, ghost Ob: map<GridCell, Obstacle?>, ghost P: map<GridCell, GridCell?>)
    returns (path: seq<GridCell>)
    requires g.Valid() && start in g.AllCells && end in closed && CellState(g, W, Ob, P)
    requires ParentChain(g, start, closed, order, W, P)
    ensures end == start <==> path == []
    ensures path != [] ==> path[|path| - 1] == end
    ensures start !in path
    ensures forall i :: 0 <= i < |path| ==> path[i] in closed
    ensures forall i, j :: 0 <= i < j < |path| ==> path[i] != path[j]
    ensures Walk(g, Positions([start] + path))
    ensures path != [] ==> Reachable(g, start, end)
  {
    var acc := CollectParents(g, start, end, closed, order, W, Ob, P);
    path := Reverse(acc);
    ReversedDistinct(g, start, closed, order, W, P, acc);
    ReversedChain(g, start, closed, order, W, P, acc);
    if path != [] {
      FoundIsReachable(g, start, end, path);
    }
  }

  /** The loop of `retracePath`: collects `end`, its parent, its parent's
      parent and so on, up to but excluding `start`. */
  method CollectParents(g: Grid, start: GridCell, end: GridCell,
                        ghost closed: set<GridCell>, ghost order: map<GridCell, nat>,
                        ghost W: set<GridCell>, ghost Ob: map<GridCell, Obstacle?>, ghost P: map<GridCell, GridCell?>)
    returns (acc: seq<GridCell>)
    requires g.Valid() && start in g.AllCells && end in closed && CellState(g, W, Ob, P)
    requires ParentChain(g, start, closed, order, W, P)
    ensures forall k :: 0 <= k < |acc| ==> acc[k] in closed && acc[k] != start
    ensures end == start <==> acc == []
    ensures acc != [] ==> acc[0] == end && P[acc[|acc| - 1]] == start
    ensures forall k :: 0 <= k < |acc| - 1 ==> P[acc[k]] == acc[k + 1]
  {
    acc := [];
    var current: GridCell? := end;
    EqualsIsIdentity(g, end, start);
    while current != null && !current.Equals(start)
      invariant current != null && current in closed
      invariant forall k :: 0 <= k < |acc| ==> acc[k] in closed && acc[k] != start
      invariant |acc| == 0 ==> current == end
      invariant |acc| > 0 ==> acc[0] == end && P[acc[|acc| - 1]] == current
      invariant forall k :: 0 <= k < |acc| - 1 ==> P[acc[k]] == acc[k + 1]
      decreases order[current]
    {
      var cell: GridCell := current;
      EqualsIsIdentity(g, cell, start);
      acc := acc + [cell];
      current := cell.parent;
    }
    EqualsIsIdentity(g, current, start);
  }

  /** The parent chain collected by `retracePath`, reversed, is a walk of
      distinct cells leading away from `start`. */
  lemma ReversedChain(g: Grid, start: GridCell, closed: set<GridCell>, order: map<GridCell, nat>,
                      W: set<GridCell>, P: map<GridCell, GridCell?>, acc: seq<GridCell>)
    requires g.Valid() && start in g.AllCells && Walkables(g, W)
    requires ParentChain(g, start, closed, order, W, P)
    requires forall k :: 0 <= k < |acc| ==> acc[k] in closed && acc[k] != start
    requires forall k :: 0 <= k < |acc| - 1 ==> P[acc[k]] == acc[k + 1]
    requires |acc| > 0 ==> P[acc[|acc| - 1]] == start
    ensures Walk(g, Positions([start] + Reverse(acc)))
  {
    forall k | 0 <= k < |acc|
      ensures acc[k] in g.AllCells && acc[k].walkable && acc[k] in P && P[acc[k]] != null
      ensures Adjacent(P[acc[k]].row, P[acc[k]].col, acc[k].row, acc[k].col)
    {
      ChainLink(g, start, closed, order, W, P, acc[k]);
    }
    var cs := [start] + Reverse(acc);
    ReversedLinks(start, acc, P);
    ReversedSteps(g, cs, acc, P);
    CellWalk(g, cs);
  }

  /** Each cell of the reversed chain is a grid cell, and each after the
      first is walkable and next to the one before it. */
  lemma ReversedSteps(g: Grid, cs: seq<GridCell>, acc: seq<GridCell>, P: map<GridCell, GridCell?>)
    requires |cs| == |acc| + 1 && cs[0] in g.AllCells
    requires forall k :: 0 <= k < |acc| ==> acc[k] in g.AllCells && acc[k].walkable && acc[k] in P && P[acc[k]] != null
    requires forall k :: 0 <= k < |acc| ==> Adjacent(P[acc[k]].row, P[acc[k]].col, acc[k].row, acc[k].col)
    requires forall i :: 0 < i < |cs| ==> StepBack(cs, acc, P, i)
    ensures forall i :: 0 <= i < |cs| ==> cs[i] in g.AllCells
    ensures forall i :: 0 < i < |cs| ==> cs[i].walkable && Adjacent(cs[i - 1].row, cs[i - 1].col, cs[i].row, cs[i].col)
  {
    forall i | 0 < i < |cs|
      ensures cs[i] in g.AllCells && cs[i].walkable && Adjacent(cs[i - 1].row, cs[i - 1].col, cs[i].row, cs[i].col)
    {
      assert StepBack(cs, acc, P, i);
      var k := |acc| - i;
      assert cs[i] == acc[k] && P[acc[k]] == cs[i - 1];
    }
  }

  /** Position `i` of `start` followed by the reversed list holds the
      list's entry counted from the back, and that entry's parent is the
      cell before it. */
  ghost predicate StepBack(cs: seq<GridCell>, acc: seq<GridCell>, P: map<GridCell, GridCell?>, i: int)
  {
    0 < i < |cs| && |cs| == |acc| + 1 && cs[i] == acc[|acc| - i] && cs[i] in P && P[cs[i]] == cs[i - 1]
  }

  /** What the chain invariant says of one closed cell other than the start. */
  lemma ChainLink(g: Grid, start: GridCell, closed: set<GridCell>, order: map<GridCell, nat>,
                  W: set<GridCell>, P: map<GridCell, GridCell?>, c: GridCell)
    requires Walkables(g, W) && ParentChain(g, start, closed, order, W, P)
    requires c in closed && c != start
    ensures c in g.AllCells && c.walkable && P[c] != null
    ensures Adjacent(P[c].row, P[c].col, c.row, c.col)
  {
  }

  /** Read backwards, parent links become forward steps: in `start`
      followed by the reversed list, each cell's parent is the cell before. */
  lemma ReversedLinks(start: GridCell, acc: seq<GridCell>, P: map<GridCell, GridCell?>)
    requires forall k :: 0 <= k < |acc| ==> acc[k] in P
    requires forall k :: 0 <= k < |acc| - 1 ==> P[acc[k]] == acc[k + 1]
    requires |acc| > 0 ==> P[acc[|acc| - 1]] == start
    ensures var cs := [start] + Reverse(acc);
      |cs| == |acc| + 1 && forall i :: 0 < i < |cs| ==> StepBack(cs, acc, P, i)
  {
    var cs := [start] + Reverse(acc);
    forall i | 0 < i < |cs|
      ensures StepBack(cs, acc, P, i)
    {
      assert cs[i] == Reverse(acc)[i - 1];
      if i > 1 {
        assert cs[i - 1] == Reverse(acc)[i - 2];
      }
    }
  }

  /** Cells collected in strictly decreasing closing order are distinct, and
      so is their reversal. */
  lemma ReversedDistinct(g: Grid, start: GridCell, closed: set<GridCell>, order: map<GridCell, nat>,
                         W: set<GridCell>, P: map<GridCell, GridCell?>, acc: seq<GridCell>)
    requires ParentChain(g, start, closed, order, W, P)
    requires forall k :: 0 <= k < |acc| ==> acc[k] in closed && acc[k] != start
    requires forall k :: 0 <= k < |acc| - 1 ==> P[acc[k]] == acc[k + 1]
    ensures forall i, j :: 0 <= i < j < |Reverse(acc)| ==> Reverse(acc)[i] != Reverse(acc)[j]
  {
    OrderDecreasing(order, acc);
    var path := Reverse(acc);
    forall i, j | 0 <= i < j < |path|
      ensures path[i] != path[j]
    {
      assert order[path[i]] < order[path[j]];
    }
  }

  /** A sequence whose closing numbers drop at every step is strictly
      decreasing throughout. */
  lemma {:induction false} OrderDecreasing(order: map<GridCell, nat>, acc: seq<GridCell>)
    requires forall k :: 0 <= k < |acc| ==> acc[k] in order
    requires forall k :: 0 <= k < |acc| - 1 ==> order[acc[k]] > order[acc[k + 1]]
    ensures forall i, j :: 0 <= i < j < |acc| ==> order[acc[i]] > order[acc[j]]
  {
    if |acc| > 1 {
      var rest := acc[1..];
      OrderDecreasing(order, rest);
      forall i, j | 0 <= i < j < |acc|
        ensures order[acc[i]] > order[acc[j]]
      {
        assert acc[j] == rest[j - 1];
        if i > 0 {
          assert acc[i] == rest[i - 1];
        } else if j > 1 {
          assert acc[1] == rest[0];
        }
      }
    }
  }

  /** A chain of grid cells, each (after the first) walkable and adjacent to
      the one before it, is a walk. */
  lemma CellWalk(g: Grid, cs: seq<GridCell>)
    requires g.Valid()
    requires forall i :: 0 <= i < |cs| ==> cs[i] in g.AllCells
    requires forall i :: 0 < i < |cs| ==>
      cs[i].walkable && Adjacent(cs[i - 1].row, cs[i - 1].col, cs[i].row, cs[i].col)
    ensures Walk(g, Positions(cs))
  {
    var p := Positions(cs);
    forall i | 0 <= i < |p|
      ensures g.InBounds(p[i].0, p[i].1) && g.cells[p[i].0, p[i].1] == cs[i]
    {
      CellSetMembership(g, cs[i]);
    }
  }

  /** A walk that starts in a set of cells closed under walkable adjacency
      stays inside it. */
  lemma {:induction false} WalkStaysInside(g: Grid, closed: set<GridCell>, W: set<GridCell>, p: seq<(int, int)>)
    requires g.Valid() && closed <= g.AllCells && Walkables(g, W)
    requires Walk(g, p) && |p| > 0 && g.cells[p[0].0, p[0].1] in closed
    requires Discovered([], closed, closed, W)
    ensures g.cells[p[|p| - 1].0, p[|p| - 1].1] in closed
  {
    if |p| > 1 {
      var q := p[..|p| - 1];
      assert Walk(g, q);
      WalkStaysInside(g, closed, W, q);
      var c, n := g.cells[q[|q| - 1].0, q[|q| - 1].1], g.cells[p[|p| - 1].0, p[|p| - 1].1];
      assert n in W && Adjacent(c.row, c.col, n.row, n.col);
    }
  }

  /** Moving the selected cell from the open list to the closed set keeps the
      bookkeeping, numbering the cell after all earlier closed ones. */
  lemma CloseStep(g: Grid, start: GridCell, open: seq<GridCell>, closed: set<GridCell>,
                  order: map<GridCell, nat>, W: set<GridCell>, P: map<GridCell, GridCell?>, i: int,
                  open': seq<GridCell>, closed': set<GridCell>, order': map<GridCell, nat>)
    requires SearchState(g, start, open, closed, order, W, P)
    requires Discovered(open, closed, closed, W)
    requires 0 <= i < |open|
    requires open' == open[..i] + open[i + 1..]
    requires closed' == closed + {open[i]} && order' == order[open[i] := |closed|]
    ensures SearchState(g, start, open', closed', order', W, P)
    ensures Discovered(open', closed', closed, W)
  {
    CloseKeepsChain(g, start, open, closed, order, W, P, i, closed', order');
    CloseKeepsOpen(g, start, open, closed, W, P, i, open', closed');
  }

  lemma CloseKeepsChain(g: Grid, start: GridCell, open: seq<GridCell>, closed: set<GridCell>,
                        order: map<GridCell, nat>, W: set<GridCell>, P: map<GridCell, GridCell?>, i: int,
                        closed': set<GridCell>, order': map<GridCell, nat>)
    requires ParentChain(g, start, closed, order, W, P) && Numbered(closed, order)
    requires OpenList(g, open, closed) && OpenParents(g, start, open, closed, W, P)
    requires 0 <= i < |open|
    requires closed' == closed + {open[i]} && order' == order[open[i] := |closed|]
    ensures ParentChain(g, start, closed', order', W, P) && Numbered(closed', order')
  {
    var current := open[i];
    assert |closed'| == |closed| + 1;
    forall c | c in closed' && c != start
      ensures c in W && P[c] != null && P[c] in closed' && order'[P[c]] < order'[c] &&
        Adjacent(P[c].row, P[c].col, c.row, c.col)
    {
      if c == current {
        assert P[c] in closed && order[P[c]] < |closed|;
      } else {
        assert c in closed && P[c] != null;
      }
    }
  }

  lemma CloseKeepsOpen(g: Grid, start: GridCell, open: seq<GridCell>, closed: set<GridCell>,
                       W: set<GridCell>, P: map<GridCell, GridCell?>, i: int,
                       open': seq<GridCell>, closed': set<GridCell>)
    requires P.Keys == g.AllCells
    requires OpenList(g, open, closed) && OpenParents(g, start, open, closed, W, P)
    requires 0 <= i < |open|
    requires open' == open[..i] + open[i + 1..] && closed' == closed + {open[i]}
    ensures OpenList(g, open', closed') && OpenParents(g, start, open', closed', W, P)
    ensures forall x :: x in open ==> x in open' || x == open[i]
  {
    assert forall k :: 0 <= k < |open'| ==> open'[k] == (if k < i then open[k] else open[k + 1]);
    forall x | x in open
      ensures x in open' || x == open[i]
    {
      var k :| 0 <= k < |open| && open[k] == x;
      if k < i {
        assert open'[k] == x;
      } else if k > i {
        assert open'[k - 1] == x;
      }
    }
  }

  /** A path found by the search witnesses that the target is reachable. */
  lemma FoundIsReachable(g: Grid, start: GridCell, target: GridCell, path: seq<GridCell>)
    requires g.Valid()
    requires Walk(g, Positions([start] + path))
    requires path != [] && path[|path| - 1] == target
    ensures Reachable(g, start, target)
  {
    var p := Positions([start] + path);
    assert p[0] == (start.row, start.col) && p[|p| - 1] == (target.row, target.col);
  }

  /** When the open list runs dry without closing the target, the target
      cannot be reached: the closed set contains `start` and every walkable
      neighbour of its cells. */
  lemma ExhaustedIsUnreachable(g: Grid, start: GridCell, target: GridCell, closed: set<GridCell>,
                               order: map<GridCell, nat>, W: set<GridCell>, P: map<GridCell, GridCell?>)
    requires g.Valid() && target in g.AllCells && target !in closed && Walkables(g, W)
    requires SearchState(g, start, [], closed, order, W, P)
    requires Discovered([], closed, closed, W)
    ensures !Reachable(g, start, target)
  {
    if Reachable(g, start, target) {
      var p :| Walk(g, p) && |p| > 0 && p[0] == (start.row, start.col) &&
        p[|p| - 1] == (target.row, target.col);
      CellSetMembership(g, start);
      CellSetMembership(g, target);
      WalkStaysInside(g, closed, W, p);
    }
  }

  /** `findPath`: A* from `start` to `target`. The result is empty when an
      end is missing, the target is blocked or start and target coincide;
      otherwise it is empty exactly when the target cannot be reached, and
      when it is not, it is a walk of distinct cells from a neighbour of
      `start` to `target`. Only the search fields of cells are changed. */
  method FindPath(g: Grid, start: GridCell?, target: GridCell?, root: int -> real)
    returns (path: seq<GridCell>)
    requires g.Valid()
    requires start != null ==> start in g.AllCells
    requires target != null ==> target in g.AllCells
    modifies g.AllCells
    ensures start == null || target == null || !target.walkable ==> path == []
    ensures start != null && start == target ==> path == []
    ensures start != null && target != null && target.walkable && start != target ==>
      (path != [] <==> Reachable(g, start, target))
    ensures path != [] ==> start != null && path[|path| - 1] == target && start !in path
    ensures path != [] ==> Walk(g, Positions([start] + path))
    ensures forall i, j :: 0 <= i < j < |path| ==> path[i] != path[j]
    ensures forall i :: 0 <= i < |path| ==> path[i] in g.AllCells
    ensures CellsUnchanged(g)
  {
    if start == null || target == null || !target.walkable {
      return [];
    }
    ResetCosts(g);
    label reset:
    ghost var W := set c | c in g.AllCells && c.walkable;
    ghost var Ob := map c | c in g.AllCells :: c.obstacle;
    ghost var P := map c | c in g.AllCells :: c.parent;
    ghost var P';
    path, P' := Search(g, start, target, root, W, Ob, P);
    assert forall c :: c in g.AllCells ==> c.walkable == old@reset(c.walkable) && c.obstacle == old@reset(c.obstacle);
  }

  /** The open/closed loop of `findPath`, run once the search fields have
      been reset. */
  method Search(g: Grid, start: GridCell, target: GridCell, root: int -> real,
                ghost W: set<GridCell>, ghost Ob: map<GridCell, Obstacle?>, ghost P: map<GridCell, GridCell?>)
    returns (path: seq<GridCell>, ghost P': map<GridCell, GridCell?>)
    requires g.Valid() && start in g.AllCells && target in W
    requires CellState(g, W, Ob, P) && P[start] == null
    modifies g.AllCells
    ensures start != target ==> (path != [] <==> Reachable(g, start, target))
    ensures start == target ==> path == []
    ensures path != [] ==> path[|path| - 1] == target && start !in path
    ensures path != [] ==> Walk(g, Positions([start] + path))
    ensures forall i, j :: 0 <= i < j < |path| ==> path[i] != path[j]
    ensures forall i :: 0 <= i < |path| ==> path[i] in g.AllCells
    ensures CellState(g, W, Ob, P')
  {
    var open: seq<GridCell> := [start];
    var closed: set<GridCell> := {};
    ghost var order: map<GridCell, nat> := map[];
    P' := P;
    while open != []
      invariant CellState(g, W, Ob, P')
      invariant SearchState(g, start, open, closed, order, W, P')
      invariant Discovered(open, closed, closed, W)
      invariant target !in closed && target in W
      decreases g.AllCells - closed
    {
      var found;
      ghost var closed0 := closed;
      open, closed, order, P', found, path := Expand(g, start, target, open, closed, order, root, W, Ob, P');
      if found {
        return;
      }
      assert closed0 < closed <= g.AllCells;
    }
    path := [];
    ExhaustedIsUnreachable(g, start, target, closed, order, W, P');
  }

  /** One pass of the loop body: close the open cell with the lowest f-cost;
      if it is the target, retrace the path (`found`); otherwise discover
      and relax its neighbours. */
  method Expand(g: Grid, start: GridCell, target: GridCell, open: seq<GridCell>,
                closed: set<GridCell>, ghost order: map<GridCell, nat>, root: int -> real,
                ghost W: set<GridCell>, ghost Ob: map<GridCell, Obstacle?>, ghost P: map<GridCell, GridCell?>)
    returns (open': seq<GridCell>, closed': set<GridCell>, ghost order': map<GridCell, nat>,
             ghost P': map<GridCell, GridCell?>, found: bool, path: seq<GridCell>)
    requires g.Valid() && target in W && target !in closed
    requires CellState(g, W, Ob, P)
    requires open != []
    requires SearchState(g, start, open, closed, order, W, P)
    requires Discovered(open, closed, closed, W)
    modifies g.AllCells
    ensures found ==> (start != target <==> path != [])
    ensures found && path != [] ==> path[|path| - 1] == target && start !in path
    ensures found && path != [] ==> Reachable(g, start, target)
    ensures found ==> Walk(g, Positions([start] + path))
    ensures found ==> forall i, j :: 0 <= i < j < |path| ==> path[i] != path[j]
    ensures found ==> forall i :: 0 <= i < |path| ==> path[i] in g.AllCells
    ensures !found ==> SearchState(g, start, open', closed', order', W, P') && target !in closed'
    ensures !found ==> Discovered(open', closed', closed', W) && closed < closed'
    ensures CellState(g, W, Ob, P')
  {
    var i := LowestFCost(open);
    var current: GridCell := open[i];
    open' := open[..i] + open[i + 1..];
    order' := order[current := |closed|];
    closed' := closed + {current};
    P' := P;
    CloseStep(g, start, open, closed, order, W, P, i, open', closed', order');
    EqualsIsIdentity(g, current, target);
    if current.Equals(target) {
      found := true;
      path := RetracePath(g, start, target, closed', order', W, Ob, P);
      return;
    }
    found, path := false, [];
    assert closed' - {current} == closed;
    open', P' := RelaxNeighbors(g, start, target, current, open', closed', order', root, W, Ob, P);
  }
}
