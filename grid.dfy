/**
  * The board: carving a maze by open-cell growth, placing the agent, the
  * goal and the fire, and the depth-first check that the goal can be reached.
  */
module Maze {
  import opened Coords
  import opened GridCells
  import opened MazeSpec

  /** The three things a placement can put on the board. */
  datatype Entity = Agent | Goal | Fire

  /** What a placement returns: the agent's or goal's position, or the set of burning cells. */
  datatype Spawn = Position(coord: Coord) | FireCells(cells: set<GridCell>)

  /** Whether a picked cell is acceptable for the entity. */
  predicate Eligible(entity: Entity, cell: GridCell)
    reads cell
  {
    match entity
    case Agent => !cell.hasAgent
    case Goal => !cell.hasAgent && !cell.goalButton
    case Fire => !cell.hasAgent && !cell.goalButton && !cell.onFire
  }

  /** No cell of the board carries an agent, a goal or fire. */
  ghost predicate Unmarked(board: Board)
    reads Cells(board)
  {
    forall x :: x in Cells(board) ==> NoMarks(x)
  }

  /** A state change that touches no cell of the board keeps it unmarked. */
  twostate lemma UnmarkedKept(board: Board)
    requires old(Unmarked(board)) && unchanged(Cells(board))
    ensures Unmarked(board)
  {
  }

  /** What placing an entity does to the flags of the cell it lands on. */
  function Mark(entity: Entity, s: Flags): Flags {
    match entity
    case Agent => AgentToggled(s)
    case Goal => GoalMarked(s)
    case Fire => Ignited(s)
  }

  /** The flags of an open cell after each kind of placement. */
  lemma MarkedFlags()
    ensures Mark(Agent, Opened(Fresh)) == Flags(true, false, false, true)
    ensures Mark(Goal, Opened(Fresh)) == Flags(true, true, false, false)
    ensures Mark(Fire, Opened(Fresh)) == Flags(true, false, true, false)
  {
  }

  /** A newly built board: nothing is open and nothing is marked. */
  lemma FreshBoard(board: Board, k: int)
    requires IsBoard(board, k) && forall x :: x in Cells(board) ==> x.State() == Fresh
    ensures OpenSet(board, k) == {} && Unmarked(board)
  {
    forall p | InBounds(p, k)
      ensures p !in OpenSet(board, k)
    {
      FlagSets(board, k, p);
      CellInCells(board, k, p.0, p.1);
    }
  }

  /**
    * The agent and the goal sit on two distinct open cells and the fire is
    * one open burning cell apart from both; no other cell of the board carries
    * an agent, a goal button or fire.
    */
  ghost predicate PlacedOn(board: Board, k: int, agent: Coord, goal: Coord, fire: set<GridCell>)
    requires IsBoard(board, k)
    reads Cells(board)
  {
    InBounds(agent, k) && InBounds(goal, k) && agent != goal &&
    board[agent.0][agent.1].open && board[agent.0][agent.1].hasAgent &&
    board[goal.0][goal.1].open && board[goal.0][goal.1].goalButton &&
    |fire| == 1 &&
    (forall f :: f in fire ==> f in Cells(board) && f.open && f.onFire && f.coord != agent && f.coord != goal) &&
    forall x :: x in Cells(board) ==>
      (x.hasAgent <==> x.coord == agent) && (x.goalButton <==> x.coord == goal) && (x.onFire <==> x in fire)
  }

  /** The cell at an open position is an open board cell that the open-cell scan lists. */
  lemma OpenCellAt(board: Board, k: int, c: Coord)
    requires IsBoard(board, k) && c in OpenSet(board, k)
    ensures board[c.0][c.1] in Select(RowMajor(board), IsOpen, OpenSet(board, k), k)
    ensures board[c.0][c.1] in Cells(board) && board[c.0][c.1].coord == c && board[c.0][c.1].open
  {
    FlagSets(board, k, c);
    CellInCells(board, k, c.0, c.1);
    SelectMember(RowMajor(board), IsOpen, OpenSet(board, k), k, board[c.0][c.1]);
    RowMajorMember(board, board[c.0][c.1]);
  }

  predicate NoMarks(x: GridCell)
    reads x
  {
    !x.goalButton && !x.onFire && !x.hasAgent
  }

  /** The open-cell scan lists open cells of the board, and on an unmarked board none carries a mark. */
  lemma OpenCellsFacts(board: Board, k: int)
    requires IsBoard(board, k)
    ensures forall y :: y in Select(RowMajor(board), IsOpen, OpenSet(board, k), k) ==> y in Cells(board) && y.open
    ensures Unmarked(board) ==> forall y :: y in Select(RowMajor(board), IsOpen, OpenSet(board, k), k) ==> NoMarks(y)
  {
    forall y | y in Select(RowMajor(board), IsOpen, OpenSet(board, k), k)
      ensures y in Cells(board) && y.open
    {
      SelectMember(RowMajor(board), IsOpen, OpenSet(board, k), k, y);
      RowMajorMember(board, y);
      CellAt(board, k, y);
      FlagSets(board, k, y.coord);
    }
  }

  /** A board with at least three open positions lists three distinct cells in its open-cell scan. */
  lemma ThreeOpenCells(board: Board, k: int) returns (w1: GridCell, w2: GridCell, w3: GridCell)
    requires IsBoard(board, k) && |OpenSet(board, k)| >= 3
    ensures w1 in Select(RowMajor(board), IsOpen, OpenSet(board, k), k)
    ensures w2 in Select(RowMajor(board), IsOpen, OpenSet(board, k), k)
    ensures w3 in Select(RowMajor(board), IsOpen, OpenSet(board, k), k)
    ensures w1 != w2 && w1 != w3 && w2 != w3
  {
    var open := OpenSet(board, k);
    var c1 := OtherOpenThan(open, {});
    var c2 := OtherOpenThan(open, {c1});
    var c3 := OtherOpenThan(open, {c1, c2});
    OpenCellAt(board, k, c1);
    OpenCellAt(board, k, c2);
    OpenCellAt(board, k, c3);
    w1, w2, w3 := board[c1.0][c1.1], board[c2.0][c2.1], board[c3.0][c3.1];
  }

  /** What placing needs of a carved, unmarked board's open-cell scan. */
  lemma OpenCellsReady(board: Board, k: int) returns (w1: GridCell, w2: GridCell, w3: GridCell)
    requires IsBoard(board, k) && Unmarked(board) && |OpenSet(board, k)| >= 3
    ensures forall y :: y in Select(RowMajor(board), IsOpen, OpenSet(board, k), k) ==> y in Cells(board) && y.open && NoMarks(y)
    ensures w1 in Select(RowMajor(board), IsOpen, OpenSet(board, k), k)
    ensures w2 in Select(RowMajor(board), IsOpen, OpenSet(board, k), k)
    ensures w3 in Select(RowMajor(board), IsOpen, OpenSet(board, k), k)
    ensures w1 != w2 && w1 != w3 && w2 != w3
  {
    OpenCellsFacts(board, k);
    w1, w2, w3 := ThreeOpenCells(board, k);
  }

  /**
    * Three distinct board cells holding the agent, the goal and the fire, on
    * a board whose other cells carry no mark, make a placement.
    */
  lemma PlacedCells(board: Board, k: int, ca: GridCell, cg: GridCell, cf: GridCell)
    requires IsBoard(board, k) && ca in Cells(board) && cg in Cells(board) && cf in Cells(board)
    requires ca != cg && ca != cf && cg != cf
    requires ca.State() == Mark(Agent, Opened(Fresh)) && cg.State() == Mark(Goal, Opened(Fresh))
    requires cf.State() == Mark(Fire, Opened(Fresh))
    requires forall x :: x in Cells(board) && x != ca && x != cg && x != cf ==> NoMarks(x)
    ensures PlacedOn(board, k, ca.coord, cg.coord, {cf})
  {
    MarkedFlags();
    CellAt(board, k, ca);
    CellAt(board, k, cg);
    CellAt(board, k, cf);
    forall x | x in Cells(board)
      ensures (x.hasAgent <==> x.coord == ca.coord) && (x.goalButton <==> x.coord == cg.coord) && (x.onFire <==> x in {cf})
    {
      CellAt(board, k, x);
    }
  }

  /**
    * After a placement the agent's cell is the only one with an agent, the
    * goal's cell the only one with a goal button, neither burns, and the fire
    * set is exactly the set of burning cells.
    */
  lemma PlacedMarks(board: Board, k: int, agent: Coord, goal: Coord, fire: set<GridCell>)
    requires IsBoard(board, k) && PlacedOn(board, k, agent, goal, fire)
    ensures !board[agent.0][agent.1].onFire && !board[agent.0][agent.1].goalButton
    ensures !board[goal.0][goal.1].onFire && !board[goal.0][goal.1].hasAgent
    ensures fire == set x | x in Cells(board) && x.onFire
    ensures forall x :: x in Cells(board) && x.hasAgent ==> x == board[agent.0][agent.1]
    ensures forall x :: x in Cells(board) && x.goalButton ==> x == board[goal.0][goal.1]
  {
    CellInCells(board, k, agent.0, agent.1);
    CellInCells(board, k, goal.0, goal.1);
    forall x | x in Cells(board)
      ensures x.hasAgent ==> x == board[agent.0][agent.1]
      ensures x.goalButton ==> x == board[goal.0][goal.1]
    {
      CellAt(board, k, x);
    }
  }

  /** More open positions than positions to avoid leave one open position outside them. */
  lemma OtherOpenThan(open: set<Coord>, avoid: set<Coord>) returns (c: Coord)
    requires |open| > |avoid|
    ensures c in open && c !in avoid
  {
    if d :| d in open && d !in avoid {
      c := d;
    } else {
      assert open <= avoid;
      SubsetCard(open, avoid);
      assert false;
    }
  }

  class Grid {
    const k: int
    /** Stored with the grid; the carving never consults it. */
    const q: real
    var grid: Board
    var openCells: seq<GridCell>
    var agentPosition: Coord
    var goalPosition: Coord
    var fireCells: set<GridCell>
    /** The cell the carving grew from. */
    ghost var seed: Coord

    ghost predicate Valid()
      reads this
    {
      k >= 1 && IsBoard(grid, k) && InBounds(agentPosition, k) && InBounds(goalPosition, k) && InBounds(seed, k)
    }

    /** The open cells form a finished maze grown from the seed. */
    ghost predicate Carved()
      requires Valid()
      reads this, Cells(grid)
    {
      var open := OpenSet(grid, k);
      seed in open && Stable(open, k) && Connected(open, seed, k) && IsTree(open, seed)
    }

    /**
      * `openCells` lists the open cells in row-major order; agent, goal and
      * the one fire sit on three distinct open cells.
      */
    ghost predicate Placed()
      requires Valid()
      reads this, Cells(grid)
    {
      openCells == Select(RowMajor(grid), IsOpen, OpenSet(grid, k), k) &&
      PlacedOn(grid, k, agentPosition, goalPosition, fireCells)
    }

    /**
      * A board of side k with its agent, goal and first fire: the carved
      * maze and the placements one generation attempt produces.
      */
    constructor (k: int, q: real)
      requires k >= 2
      ensures this.k == k && this.q == q
      ensures Valid() && Carved() && Placed() && fresh(Cells(grid))
    {
      this.k := k;
      this.q := q;
      new;
      Generate();
    }

    /**
      * One generation attempt: carve a new board, list its open cells, then
      * place the agent, the goal and the first fire.
      */
    method Generate()
      requires k >= 2
      modifies this
      ensures Valid() && Carved() && Placed() && fresh(Cells(grid))
    {
      var board;
      ghost var s;
      board, s := InitializeGrid();
      ThreeOpen(OpenSet(board, k), s, k);
      var cells, a, g, f := Populate(board);
      label Placing:
      Install(board, cells, a, g, f, s);
      PlacementKept@Placing(board);
    }

    /** One more round of the regeneration loop: generate again and search again. */
    method Retry() returns (solvable: bool)
      requires k >= 2
      modifies this
      ensures Valid() && Carved() && Placed() && fresh(Cells(grid))
      ensures solvable <==> Reachable(agentPosition, goalPosition, PassableSet(grid, k), k)
    {
      Generate();
      label Generated:
      solvable := AgentToGoalExists(grid);
      GridKept@Generated();
    }

    /** Record a generated maze in the grid's fields; no cell changes. */
    method Install(board: Board, cells: seq<GridCell>, agent: Coord, goal: Coord, fire: set<GridCell>, ghost start: Coord)
      modifies this
      ensures grid == board && openCells == cells && seed == start
      ensures agentPosition == agent && goalPosition == goal && fireCells == fire
      ensures unchanged(Cells(board))
    {
      grid, openCells, agentPosition, goalPosition, fireCells, seed := board, cells, agent, goal, fire, start;
    }

    /** A state change that touches neither the grid nor its cells keeps the maze and its placements. */
    twostate lemma GridKept()
      requires old(Valid() && Carved() && Placed()) && unchanged(this) && unchanged(Cells(grid))
      ensures Valid() && Carved() && Placed()
    {
    }

    /**
      * A state change that touches no cell of the board keeps which of its positions may be entered.
      * The board and the set come as one tuple: Dafny 4.11 fails on a call of a two-state lemma
      * with more than one explicit argument when it checks for contradictory assumptions.
      */
    twostate lemma PassableKept(passable: (Board, set<Coord>))
      requires var (own, through) := passable; old(PassableIs(own, through, k)) && unchanged(Cells(own))
      ensures var (own, through) := passable; PassableIs(own, through, k)
    {
    }

    /** A state change that touches no cell of the board leaves its open and passable sets alone. */
    twostate lemma OpenSetKept(board: Board)
      requires IsBoard(board, k) && unchanged(Cells(board))
      ensures OpenSet(board, k) == old(OpenSet(board, k)) && PassableSet(board, k) == old(PassableSet(board, k))
    {
    }

    /** A state change that keeps every cell's `open` flag keeps the open set. */
    twostate lemma OpenSetFlagsKept(board: Board)
      requires IsBoard(board, k) && forall x :: x in Cells(board) ==> x.open == old(x.open)
      ensures OpenSet(board, k) == old(OpenSet(board, k))
    {
      forall p | InBounds(p, k)
        ensures p in OpenSet(board, k) <==> p in old(OpenSet(board, k))
      {
        CellInCells(board, k, p.0, p.1);
      }
    }

    /**
      * Opening one cell of a board, and changing no other cell and none of its marks,
      * adds exactly its position to the open set and keeps the board unmarked.
      * The board and the cell come as one tuple, for the same reason as in `PassableKept`.
      */
    twostate lemma OpenedOnBoard(opening: (Board, GridCell))
      requires var (board, x) := opening; IsBoard(board, k) && x in Cells(board) && x.open
      requires var (board, x) := opening; unchanged(Cells(board) - {x})
      requires var (board, x) := opening;
        x.goalButton == old(x.goalButton) && x.onFire == old(x.onFire) && x.hasAgent == old(x.hasAgent)
      ensures var (board, x) := opening; old(Unmarked(board)) ==> Unmarked(board)
      ensures var (board, x) := opening; OpenSet(board, k) == old(OpenSet(board, k)) + {x.coord}
    {
      var (board, x) := opening;
      forall p | InBounds(p, k)
        ensures p in OpenSet(board, k) <==> p in old(OpenSet(board, k)) + {x.coord}
      {
        var y := board[p.0][p.1];
        CellInCells(board, k, p.0, p.1);
        if y != x {
          assert y in Cells(board) - {x};
        }
      }
      if old(Unmarked(board)) {
        forall y | y in Cells(board) ensures !y.goalButton && !y.onFire && !y.hasAgent {
          if y != x {
            assert y in Cells(board) - {x};
          }
        }
      }
    }

    /**
      * A state change that touches no cell of the board keeps its open set and
      * keeps on it what the new agent, goal and fire fields name.
      */
    twostate lemma PlacementKept(board: Board)
      requires IsBoard(board, k) && unchanged(Cells(board))
      requires var a, g, f := agentPosition, goalPosition, fireCells;
        old(allocated(a)) && old(allocated(g)) && old(allocated(f))
      ensures OpenSet(board, k) == old(OpenSet(board, k))
      ensures var a, g, f := agentPosition, goalPosition, fireCells;
        PlacedOn(board, k, a, g, f) == old(PlacedOn(board, k, a, g, f))
    {
    }

    /** The cell at (row, col), or None when the position is off the board. */
    function GetCell(board: Board, row: int, col: int): (r: Option<GridCell>)
      requires IsBoard(board, k)
      ensures r.Some? <==> InBounds((row, col), k)
      ensures r.Some? ==> r.value.coord == (row, col) && r.value in Cells(board)
    {
      if 0 <= row < k && 0 <= col < k then Some(board[row][col]) else None
    }

    /** The open cells, in row-major order. */
    method GetOpenCells(board: Board) returns (cells: seq<GridCell>)
      requires IsBoard(board, k)
      ensures cells == Select(RowMajor(board), IsOpen, OpenSet(board, k), k)
    {
      cells := [];
      var row := 0;
      while row < |board|
        invariant 0 <= row <= |board|
        invariant cells == Select(RowMajor(board[..row]), IsOpen, OpenSet(board, k), k)
      {
        var col := 0;
        ScanRowStart(board, row);
        while col < |board[row]|
          invariant 0 <= col <= |board[row]|
          invariant cells == Select(RowMajor(board[..row]) + board[row][..col], IsOpen, OpenSet(board, k), k)
        {
          var cell := board[row][col];
          ScanCell(board, k, row, col, IsOpen);
          if cell.open {
            cells := cells + [cell];
          }
          col := col + 1;
        }
        ScanRowEnd(board, row);
        row := row + 1;
      }
      WholePrefix(board);
    }

    /** The closed cells, in row-major order. */
    method GetClosedCells(board: Board) returns (cells: seq<GridCell>)
      requires IsBoard(board, k)
      ensures cells == Select(RowMajor(board), IsClosed, OpenSet(board, k), k)
    {
      cells := [];
      var row := 0;
      while row < |board|
        invariant 0 <= row <= |board|
        invariant cells == Select(RowMajor(board[..row]), IsClosed, OpenSet(board, k), k)
      {
        var col := 0;
        ScanRowStart(board, row);
        while col < |board[row]|
          invariant 0 <= col <= |board[row]|
          invariant cells == Select(RowMajor(board[..row]) + board[row][..col], IsClosed, OpenSet(board, k), k)
        {
          var cell := board[row][col];
          ScanCell(board, k, row, col, IsClosed);
          if !cell.open {
            cells := cells + [cell];
          }
          col := col + 1;
        }
        ScanRowEnd(board, row);
        row := row + 1;
      }
      WholePrefix(board);
    }

    /** Whether exactly one of the cell's present neighbour slots names an open cell. */
    method HasOneOpenNeighbour(board: Board, cell: GridCell) returns (b: bool)
      requires IsBoard(board, k) && cell.PlacedIn(k)
      ensures b == OneOpen(OpenSet(board, k), cell.coord, k)
    {
      var neighbours := [cell.left, cell.right, cell.down, cell.up];
      var openNeighbours := 0;
      for i := 0 to |neighbours|
        invariant openNeighbours == OpenCount(neighbours[..i], OpenSet(board, k))
      {
        var neighbour := neighbours[i];
        OpenCountPrefix(neighbours, i, OpenSet(board, k));
        if neighbour.Some? {
          var (row, col) := neighbour.value;
          SlotIsNeighbour(cell.coord, k, i);
          var c := GetCell(board, row, col);
          FlagSets(board, k, (row, col));
          if c.value.open {
            openNeighbours := openNeighbours + 1;
          }
        }
      }
      WholePrefix(neighbours);
      b := openNeighbours == 1;
    }

    /** The cells of the list that pass the one-open-neighbour test, in list order. */
    method FindCellsWithOneOpenNeighbour(board: Board, cellsList: seq<GridCell>) returns (found: seq<GridCell>)
      requires IsBoard(board, k)
      requires forall x :: x in cellsList ==> x.PlacedIn(k)
      ensures found == Select(cellsList, OneOpenNeighbour, OpenSet(board, k), k)
    {
      found := [];
      for i := 0 to |cellsList|
        invariant found == Select(cellsList[..i], OneOpenNeighbour, OpenSet(board, k), k)
      {
        var cell := cellsList[i];
        SelectPrefix(cellsList, i, OneOpenNeighbour, OpenSet(board, k), k);
        label Before:
        var one := HasOneOpenNeighbour(board, cell);
        OpenSetKept@Before(board);
        if one {
          found := found + [cell];
        }
      }
      WholePrefix(cellsList);
    }


    /** The carving's candidates: the closed cells with exactly one open neighbour, in row-major order. */
    method CarveCandidates(board: Board) returns (candidates: seq<GridCell>)
      requires IsBoard(board, k)
      ensures candidates == Candidates(board, OpenSet(board, k), k)
    {
      label Before:
      var closed := GetClosedCells(board);
      OpenSetKept@Before(board);
      assert forall x :: x in closed ==> x.PlacedIn(k) by {
        BoardScanPlaced(board, IsClosed, OpenSet(board, k), k);
      }
      candidates := FindCellsWithOneOpenNeighbour(board, closed);
      OpenSetKept@Before(board);
    }

    /** Open one cell of the board: the open set gains exactly its position and no marks appear. */
    method OpenOnBoard(board: Board, x: GridCell)
      requires IsBoard(board, k) && x in Cells(board) && Unmarked(board)
      modifies x
      ensures x.State() == Opened(old(x.State()))
      ensures Unmarked(board)
      ensures OpenSet(board, k) == old(OpenSet(board, k)) + {x.coord}
    {
      label Opening:
      x.OpenCell();
      OpenedOnBoard@Opening((board, x));
    }

    /** The dead ends: the open cells with exactly one open neighbour, in row-major order. */
    method FindDeadEnds(board: Board) returns (deadEnds: seq<GridCell>)
      requires IsBoard(board, k)
      ensures deadEnds == DeadEnds(board, OpenSet(board, k), k)
    {
      label Before:
      var openList := GetOpenCells(board);
      OpenSetKept@Before(board);
      assert forall x :: x in openList ==> x.PlacedIn(k) by {
        BoardScanPlaced(board, IsOpen, OpenSet(board, k), k);
      }
      deadEnds := FindCellsWithOneOpenNeighbour(board, openList);
      OpenSetKept@Before(board);
    }

    /**
      * The dead-end pass: half of the dead ends, rounded down, are picked
      * arbitrarily without replacement and opened again. Each of them is
      * already open, so no cell of the board changes.
      */
    method AdjustDeadEnds(board: Board) returns (deadEnds: seq<GridCell>, ghost found: seq<GridCell>, ghost reopened: seq<GridCell>)
      requires IsBoard(board, k)
      modifies Cells(board)
      ensures found == DeadEnds(board, OpenSet(board, k), k)
      ensures |reopened| == |found| / 2 && |deadEnds| == |found| - |found| / 2
      ensures multiset(reopened) + multiset(deadEnds) == multiset(found)
      ensures unchanged(Cells(board))
    {
      label Before:
      deadEnds := FindDeadEnds(board);
      OpenSetKept@Before(board);
      found := deadEnds;
      DeadEndsOpen(board, k);
      reopened := [];
      ghost var cells := Cells(board);
      var half := |deadEnds| / 2;
      for i := 0 to half
        invariant |reopened| == i && |deadEnds| == |found| - i
        invariant multiset(reopened) + multiset(deadEnds) == multiset(found)
        invariant forall x :: x in deadEnds ==> x in cells && x.open
        invariant unchanged(cells)
      {
        var x;
        deadEnds, x := ReopenOne(deadEnds, cells);
        reopened := reopened + [x];
      }
    }

    /**
      * A new board: every cell closed and unmarked, one seed position opened,
      * the carving loop run to the end, then the dead-end pass.
      */
    method InitializeGrid() returns (board: Board, ghost seed: Coord)
      requires k >= 1
      ensures IsBoard(board, k) && fresh(Cells(board)) && Unmarked(board)
      ensures InBounds(seed, k) && seed in OpenSet(board, k)
      ensures Stable(OpenSet(board, k), k) && Connected(OpenSet(board, k), seed, k) && IsTree(OpenSet(board, k), seed)
    {
      board := NewBoard(k);
      FreshBoard(board, k);
      var firstRow :| 0 <= firstRow < k;
      var firstCol :| 0 <= firstCol < k;
      seed := (firstRow, firstCol);
      CellInCells(board, k, firstRow, firstCol);
      OpenOnBoard(board, board[firstRow][firstCol]);
      ghost var steps := Carve(board, seed);
      label Carved:
      var deadEnds, found, reopened := AdjustDeadEnds(board);
      OpenSetKept@Carved(board);
      UnmarkedKept@Carved(board);
    }

    /**
      * Place one entity on a cell of `openCells` that is eligible for it,
      * chosen arbitrarily: the agent is toggled on, the goal button set, or
      * the cell set on fire. No other cell of `cells`, the board the list
      * was taken from, changes.
      */
    method InitEntity(openCells: seq<GridCell>, entity: Entity, ghost cells: set<GridCell>)
      returns (spawn: Spawn, ghost chosen: GridCell)
      requires exists c :: c in openCells && Eligible(entity, c)
      requires forall y :: y in openCells ==> y in cells
      modifies openCells
      ensures chosen in openCells && old(Eligible(entity, chosen))
      ensures chosen.State() == Mark(entity, old(chosen.State()))
      ensures forall y :: y in cells && y != chosen ==> y.State() == old(y.State())
      ensures spawn == if entity == Fire then FireCells({chosen}) else Position(chosen.coord)
    {
      var cell :| cell in openCells && Eligible(entity, cell);
      chosen := cell;
      match entity {
        case Fire =>
          cell.SetOnFire();
          spawn := FireCells({cell});
        case Agent =>
          cell.ToggleAgent();
          spawn := Position(cell.coord);
        case Goal =>
          cell.goalButton := true;
          spawn := Position(cell.coord);
      }
    }

    /**
      * One placement among open cells where every cell outside `avoid`
      * carries no mark and no cell of `avoid` is eligible for the entity:
      * the entity lands on a cell outside `avoid`, that cell's flags become
      * those of an open cell holding just this entity, and no other cell of
      * `cells` changes.
      */
    method PlaceOne(openCells: seq<GridCell>, entity: Entity, ghost cells: set<GridCell>, ghost avoid: set<GridCell>)
      returns (spawn: Spawn, ghost chosen: GridCell)
      requires forall y :: y in openCells ==> y in cells && y.open
      requires forall y :: y in openCells && y !in avoid ==> NoMarks(y)
      requires forall y :: y in avoid ==> !Eligible(entity, y)
      requires exists y :: y in openCells && y !in avoid
      modifies openCells
      ensures chosen in openCells && chosen !in avoid && chosen.State() == Mark(entity, Opened(Fresh))
      ensures forall y :: y in cells && y != chosen ==> y.State() == old(y.State())
      ensures forall y :: y in cells ==> y.open == old(y.open)
      ensures spawn == if entity == Fire then FireCells({chosen}) else Position(chosen.coord)
    {
      ghost var w :| w in openCells && w !in avoid;
      assert Eligible(entity, w);
      spawn, chosen := InitEntity(openCells, entity, cells);
    }

    /**
      * Place the agent, then the goal, then the first fire among unmarked
      * open cells, three of which are known to be distinct: the three land
      * on three distinct cells and no cell is opened or closed.
      */
    method PlaceAll(openCells: seq<GridCell>, ghost cells: set<GridCell>, ghost w1: GridCell, ghost w2: GridCell, ghost w3: GridCell)
      returns (agent: Coord, goal: Coord, fire: set<GridCell>, ghost ca: GridCell, ghost cg: GridCell, ghost cf: GridCell)
      requires forall y :: y in openCells ==> y in cells && y.open && NoMarks(y)
      requires w1 in openCells && w2 in openCells && w3 in openCells && w1 != w2 && w1 != w3 && w2 != w3
      modifies openCells
      ensures ca in openCells && cg in openCells && cf in openCells && ca != cg && ca != cf && cg != cf
      ensures ca.State() == Mark(Agent, Opened(Fresh)) && agent == ca.coord
      ensures cg.State() == Mark(Goal, Opened(Fresh)) && goal == cg.coord
      ensures cf.State() == Mark(Fire, Opened(Fresh)) && fire == {cf}
      ensures forall y :: y in cells && y != ca && y != cg && y != cf ==> y.State() == old(y.State())
      ensures forall y :: y in cells ==> y.open == old(y.open)
    {
      var spawn;
      spawn, ca := PlaceOne(openCells, Agent, cells, {});
      agent := spawn.coord;
      assert w1 !in {ca} || w2 !in {ca};
      spawn, cg := PlaceOne(openCells, Goal, cells, {ca});
      goal := spawn.coord;
      assert w1 !in {ca, cg} || w2 !in {ca, cg} || w3 !in {ca, cg};
      spawn, cf := PlaceOne(openCells, Fire, cells, {ca, cg});
      fire := spawn.cells;
    }

    /** List the open cells of a freshly carved board, then place the entities on them. */
    method Populate(board: Board) returns (cells: seq<GridCell>, agent: Coord, goal: Coord, fire: set<GridCell>)
      requires IsBoard(board, k) && Unmarked(board) && |OpenSet(board, k)| >= 3
      modifies Cells(board)
      ensures OpenSet(board, k) == old(OpenSet(board, k))
      ensures cells == Select(RowMajor(board), IsOpen, OpenSet(board, k), k)
      ensures PlacedOn(board, k, agent, goal, fire)
    {
      label Carved:
      cells := GetOpenCells(board);
      OpenSetKept@Carved(board);
      UnmarkedKept@Carved(board);
      agent, goal, fire := PlaceOnBoard(board, cells);
    }

    /** Place the agent, the goal and the fire on three distinct cells of the open-cell list. */
    method PlaceOnBoard(board: Board, cells: seq<GridCell>) returns (agent: Coord, goal: Coord, fire: set<GridCell>)
      requires IsBoard(board, k) && Unmarked(board) && |OpenSet(board, k)| >= 3
      requires cells == Select(RowMajor(board), IsOpen, OpenSet(board, k), k)
      modifies Cells(board)
      ensures OpenSet(board, k) == old(OpenSet(board, k))
      ensures PlacedOn(board, k, agent, goal, fire)
    {
      label Listed:
      ghost var w1, w2, w3 := OpenCellsReady(board, k);
      ghost var ca, cg, cf;
      agent, goal, fire, ca, cg, cf := PlaceAll(cells, Cells(board), w1, w2, w3);
      forall x | x in Cells(board) && x != ca && x != cg && x != cf
        ensures NoMarks(x)
      {
        assert old(NoMarks(x));
      }
      PlacedCells(board, k, ca, cg, cf);
      OpenSetFlagsKept@Listed(board);
    }

    /**
      * One round of carving: look for closed cells with exactly one open
      * neighbour; if there are none the open set is stable, otherwise one
      * of them, chosen arbitrarily, is opened and the witnessing paths grow.
      */
    method CarveOnce(board: Board, ghost seed: Coord, ghost paths: map<Coord, seq<Coord>>,
                     ghost parent: map<Coord, Coord>, ghost depth: map<Coord, nat>)
      returns (carved: bool, ghost c: Coord, ghost paths': map<Coord, seq<Coord>>,
               ghost parent': map<Coord, Coord>, ghost depth': map<Coord, nat>)
      requires IsBoard(board, k) && Unmarked(board)
      requires Witnessed(OpenSet(board, k), seed, paths, k) && TreeWitness(OpenSet(board, k), seed, parent, depth)
      modifies Cells(board)
      ensures Unmarked(board)
      ensures Witnessed(OpenSet(board, k), seed, paths', k) && TreeWitness(OpenSet(board, k), seed, parent', depth')
      ensures !carved ==> OpenSet(board, k) == old(OpenSet(board, k)) && Stable(OpenSet(board, k), k)
      ensures carved ==> c in AllCoords(k) && c !in old(OpenSet(board, k)) && OneOpen(old(OpenSet(board, k)), c, k)
      ensures carved ==> OpenSet(board, k) == old(OpenSet(board, k)) + {c}
    {
      ghost var open := OpenSet(board, k);
      label Scan:
      var candidates := CarveCandidates(board);
      OpenSetKept@Scan(board);
      UnmarkedKept@Scan(board);
      if |candidates| == 0 {
        assert Stable(open, k) by {
          CandidatesEmptyIffStable(board, open, k);
        }
        return false, seed, paths, parent, depth;
      }
      var i :| 0 <= i < |candidates|;
      var cell := candidates[i];
      paths', parent', depth' := CarveRound(board, open, seed, paths, parent, depth, k, cell);
      OpenOnBoard(board, cell);
      return true, cell.coord, paths', parent', depth';
    }

    /**
      * The carving loop: repeat rounds until no closed cell has exactly one
      * open neighbour. `steps` counts the cells opened; every round hangs the
      * new cell under its one open neighbour, so the open cells stay a tree.
      */
    method Carve(board: Board, ghost seed: Coord) returns (ghost steps: nat)
      requires IsBoard(board, k) && OpenSet(board, k) == {seed} && Unmarked(board)
      modifies Cells(board)
      ensures Unmarked(board)
      ensures seed in OpenSet(board, k) && Stable(OpenSet(board, k), k) && Connected(OpenSet(board, k), seed, k)
      ensures IsTree(OpenSet(board, k), seed)
      ensures |OpenSet(board, k)| == steps + 1 && steps <= k * k - 1
    {
      ghost var open := {seed};
      ghost var paths: map<Coord, seq<Coord>> := map[seed := [seed]];
      ghost var parent: map<Coord, Coord> := map[];
      ghost var depth: map<Coord, nat> := map[seed := 0];
      WitnessedSeed(seed, k);
      assert TreeWitness(open, seed, parent, depth);
      steps := 0;
      while true
        invariant IsBoard(board, k) && Unmarked(board) && open == OpenSet(board, k)
        invariant seed in open && |open| == steps + 1
        invariant Witnessed(open, seed, paths, k) && TreeWitness(open, seed, parent, depth)
        decreases AllCoords(k) - open
      {
        var carved;
        ghost var c;
        carved, c, paths, parent, depth := CarveOnce(board, seed, paths, parent, depth);
        if !carved {
          break;
        }
        AddOneCard(open, c);
        open := open + {c};
        steps := steps + 1;
      }
      WitnessedConnected(open, seed, paths, k);
      InBoundsCount(open, k);
      assert TreeWitness(open, seed, parent, depth);
    }

    /**
      * Depth-first search from the agent towards the goal over open cells
      * that are not on fire. The cells taken from `board` only supply their
      * neighbour slots; whether a neighbour may be entered is looked up on
      * the grid's own board.
      */
    method AgentToGoalExists(board: Board) returns (found: bool)
      requires Valid() && IsBoard(board, k)
      ensures found <==> Reachable(agentPosition, goalPosition, PassableSet(grid, k), k)
    {
      var start, goal, own := agentPosition, goalPosition, grid;
      ghost var through := PassableSet(own, k);
      if start == goal {
        assert PathFromTo([start], start, goal, through, k);
        return true;
      }
      label Search:
      PassableSetIs(own, k);
      ghost var pops;
      found, pops := SearchFrom(board, own, start, goal, through);
      OpenSetKept@Search(own);
    }

    /**
      * The search loop: pop the most recently pushed position and visit its
      * neighbours, until the goal is met or the stack runs empty. Every
      * position is pushed at most once, so there are at most k*k pops.
      */
    method SearchFrom(board: Board, own: Board, start: Coord, goal: Coord, ghost through: set<Coord>)
      returns (found: bool, ghost pops: nat)
      requires IsBoard(board, k) && PassableIs(own, through, k) && InBounds(start, k) && start != goal
      ensures found <==> Reachable(start, goal, through, k)
      ensures pops <= k * k
    {
      var stack := [start];
      var visited := {start};
      ghost var paths := map[start := [start]];
      pops := 0;
      SearchStart(start, goal, through, k);
      AllCoordsCount(k);
      while |stack| > 0
        invariant Searching(start, goal, stack, visited, paths, {}, through, k)
        invariant pops + |stack| == |visited|
        decreases |AllCoords(k)| - |visited|, |stack|
      {
        PassableKept((own, through));
        VisitedBound(visited, k);
        var reached;
        reached, stack, visited, paths := SearchStep(board, own, start, goal, stack, visited, paths, through);
        pops := pops + 1;
        if reached {
          return true, pops;
        }
      }
      VisitedBound(visited, k);
      SearchExhausted(start, goal, visited, paths, through, k);
      return false, pops;
    }

    /** One round of the search loop: pop the top of the stack and visit its neighbours. */
    method SearchStep(board: Board, own: Board, start: Coord, goal: Coord, stack: seq<Coord>,
                      visited: set<Coord>, ghost paths: map<Coord, seq<Coord>>, ghost through: set<Coord>)
      returns (reached: bool, stack': seq<Coord>, visited': set<Coord>, ghost paths': map<Coord, seq<Coord>>)
      requires IsBoard(board, k) && PassableIs(own, through, k) && |stack| > 0
      requires Searching(start, goal, stack, visited, paths, {}, through, k)
      ensures reached ==> Reachable(start, goal, through, k)
      ensures !reached ==> Searching(start, goal, stack', visited', paths', {}, through, k)
      ensures !reached ==> (|visited| < |visited'| <= |AllCoords(k)|) || (visited' == visited && |stack'| < |stack|)
      ensures !reached ==> |stack'| + 1 == |stack| + |visited'| - |visited|
    {
      SearchPop(start, goal, stack, visited, paths, through, k);
      var cur := stack[|stack| - 1];
      reached, stack', visited', paths' := VisitNeighbours(own, board[cur.0][cur.1], start, goal, stack[..|stack| - 1], visited, paths, through);
      if !reached {
        VisitedBound(visited', k);
      }
    }

    /**
      * The inner loop of a search round: look at the neighbour slots of `cell` in
      * order and visit each enterable position not seen yet, stopping at the
      * goal.
      */
    method VisitNeighbours(own: Board, cell: GridCell, start: Coord, goal: Coord, stack: seq<Coord>,
                           visited: set<Coord>, ghost paths: map<Coord, seq<Coord>>, ghost through: set<Coord>)
      returns (reached: bool, stack': seq<Coord>, visited': set<Coord>, ghost paths': map<Coord, seq<Coord>>)
      requires PassableIs(own, through, k) && cell.PlacedIn(k)
      requires cell.coord in visited && Searching(start, goal, stack, visited, paths, {cell.coord}, through, k)
      ensures reached ==> Reachable(start, goal, through, k)
      ensures !reached ==> Searching(start, goal, stack', visited', paths', {}, through, k)
      ensures !reached ==> visited <= visited' && (|visited'| > |visited| || (visited' == visited && stack' == stack))
      ensures !reached ==> |stack'| - |stack| == |visited'| - |visited|
    {
      var cur := cell.coord;
      stack', visited', paths' := stack, visited, paths;
      var neighbours := [cell.left, cell.right, cell.down, cell.up];
      assert neighbours == NeighbourSlots(cur, k);
      for i := 0 to |neighbours|
        invariant Searching(start, goal, stack', visited', paths', {cur}, through, k)
        invariant visited <= visited' && (|visited'| > |visited| || (visited' == visited && stack' == stack))
        invariant |stack'| - |stack| == |visited'| - |visited|
        invariant SlotsSeen(neighbours, i, visited', through)
      {
        ghost var seen := visited';
        if neighbours[i].Some? {
          var neighbour := neighbours[i].value;
          if neighbour !in visited' {
            SlotIsNeighbour(cur, k, i);
            var c := own[neighbour.0][neighbour.1];
            if c.open && !c.onFire {
              if neighbour == goal {
                GoalNext(start, goal, stack', visited', paths', {cur}, through, k, cur);
                return true, stack', visited', paths';
              }
              SearchPush(start, goal, stack', visited', paths', {cur}, through, k, cur, neighbour);
              visited' := visited' + {neighbour};
              stack' := stack' + [neighbour];
              paths' := paths'[neighbour := paths'[cur] + [neighbour]];
            }
          }
        }
        SlotsSeenStep(neighbours, i, seen, visited', through);
      }
      SlotsExpanded(cur, visited', through, k);
      SearchExpanded(start, goal, stack', visited', paths', cur, through, k);
      reached := false;
    }

    /** The textual dump of the grid: per row, the cells' glyphs joined by single spaces, then a line break. */
    method ToString() returns (s: string)
      requires Valid()
      ensures s == BoardText(grid)
    {
      s := "";
      for r := 0 to |grid|
        invariant s == Lines(BoardLines(grid, r))
      {
        // One row: its cells' glyphs joined by single spaces.
        var line := Join(RowGlyphs(grid[r]));
        BoardLinesStep(grid, r);
        s := s + line + "\n";
      }
    }
  }

  /**
    * Take one dead end, chosen arbitrarily, out of the list and open it
    * again; since it is open already, no cell changes.
    */
  method ReopenOne(deadEnds: seq<GridCell>, ghost cells: set<GridCell>) returns (rest: seq<GridCell>, x: GridCell)
    requires |deadEnds| > 0 && forall y :: y in deadEnds ==> y in cells && y.open
    modifies cells
    ensures unchanged(cells)
    ensures x in deadEnds && |rest| == |deadEnds| - 1 && multiset(rest) + multiset{x} == multiset(deadEnds)
    ensures forall y :: y in rest ==> y in cells && y.open
  {
    var j :| 0 <= j < |deadEnds|;
    x := deadEnds[j];
    RemoveAt(deadEnds, j);
    rest := deadEnds[..j] + deadEnds[j + 1..];
    x.OpenCell();
  }

  /** `x` is a new cell built for position (r, c) of a k-by-k board. */
  predicate NewCellAt(x: GridCell, r: int, c: int, k: int)
    reads x
  {
    x.coord == (r, c) && x.PlacedIn(k) && x.State() == Fresh
  }

  /** Row `row` of a new board: k fresh, closed, unmarked cells at (row, 0) .. (row, k-1). */
  method NewRow(row: int, k: int) returns (cells: seq<GridCell>)
    requires 0 <= row < k
    ensures |cells| == k
    ensures forall c :: 0 <= c < k ==> fresh(cells[c]) && NewCellAt(cells[c], row, c, k)
  {
    cells := [];
    for col := 0 to k
      invariant |cells| == col
      invariant forall c :: 0 <= c < col ==> fresh(cells[c]) && NewCellAt(cells[c], row, c, k)
    {
      var cell := new GridCell(row, col, k);
      cells := cells + [cell];
    }
  }

  /** A k-by-k board of fresh, closed, unmarked cells. */
  method NewBoard(k: int) returns (board: Board)
    requires k >= 0
    ensures IsBoard(board, k) && fresh(Cells(board))
    ensures forall x :: x in Cells(board) ==> x.State() == Fresh
  {
    board := [];
    for row := 0 to k
      invariant |board| == row
      invariant forall r :: 0 <= r < row ==> |board[r]| == k
      invariant forall r, c :: 0 <= r < row && 0 <= c < k ==> fresh(board[r][c]) && NewCellAt(board[r][c], r, c, k)
    {
      var cells := NewRow(row, k);
      board := board + [cells];
    }
  }

  /**
    * Building a grid: generate once, then regenerate while the depth-first
    * search finds no way from the agent to the goal, giving up after
    * `maxAttempts` further attempts. `solvable` is what the last search
    * answered.
    */
  method Construct(k: int, q: real, maxAttempts: nat) returns (g: Grid, solvable: bool)
    requires k >= 2
    ensures fresh(g) && g.k == k && g.q == q
    ensures g.Valid() && g.Carved() && g.Placed()
    ensures solvable <==> Reachable(g.agentPosition, g.goalPosition, PassableSet(g.grid, g.k), g.k)
  {
    g := new Grid(k, q);
    label Built:
    solvable := g.AgentToGoalExists(g.grid);
    g.GridKept@Built();
    var attempts := 0;
    while !solvable && attempts < maxAttempts
      invariant fresh(g) && g.k == k && g.q == q
      invariant g.Valid() && g.Carved() && g.Placed() && fresh(Cells(g.grid))
      invariant solvable <==> Reachable(g.agentPosition, g.goalPosition, PassableSet(g.grid, g.k), g.k)
      decreases maxAttempts - attempts
    {
      solvable := g.Retry();
      attempts := attempts + 1;
    }
  }
}
