# Maze generator: a verified model

`proj1.py` builds a square maze of `k × k` cells for a fire-escape game and
checks that it can be played. A `GridCell` knows its position, its four
neighbour slots (left, right, down, up, each absent at the board's edge) and
four flags: open, goal button, on fire, has agent. A `Grid` carves the maze by
randomised growth from one seed cell. Each round it opens a closed cell that
has exactly one open neighbour, until no such cell is left. It then runs a
dead-end pass, places the agent, the goal and a first fire on open cells, and
runs a depth-first search from the agent to the goal through open cells that
are not burning. An attempt that fails the search is thrown away and a new
one is made. The grid also prints as text, one line per row.

The model has four modules.

- `Coords` (coords.dfy): positions, bounds, adjacency, the four neighbour
  slots a cell computes, and counting facts about the board's positions.
- `GridCells` (grid_cell.dfy): the class `GridCell`, with constant topology
  fields and mutable flags. The flags are also a value `Flags`, so that each
  state change has a pure counterpart.
- `MazeSpec` (maze_spec.dfy): the specification vocabulary.
  - The board is a sequence of rows of cells.
  - The open set and the passable set are the positions whose cell is open
    (and, for passable, not on fire).
  - `Select` is the order-preserving filter the scans compute, and
    `RowMajor` is their iteration order.
  - The one-open-neighbour test has a stable-maze predicate alongside it.
  - Paths, reachability and connectivity are defined over sets of positions.
  - A parent-and-depth witness says that the open positions, joined by
    their adjacencies, form a tree rooted at the seed: every open position
    but the seed has an adjacent open parent one step nearer the seed, and
    every adjacency between open positions is such a parent link.
  - `BoardText` is the text the grid prints.
  - The lemmas that connect these are here too.
- `Maze` (grid.dfy): the class `Grid` and the module-level driver
  `Construct`. The scans, the carving loop, the dead-end pass, the search
  and the text dump are methods with loops. Each of them is proved against
  the functions of `MazeSpec`. The placements are methods without a loop:
  the source's re-draw loops become one choice of an eligible cell.

Some of the source's methods are split into helper methods:

- `SearchFrom` is the search loop, `SearchStep` one round of it, and `VisitNeighbours` the inner loop over the four slots.
- `CarveOnce` is one round of the carving loop.
- `Populate`, `PlaceOnBoard`, `PlaceAll` and `PlaceOne` follow the straight-line listing and placement code (proj1.py:51-54).
- `Install` only stores the generated board, open-cell list and placements in the grid's fields.
- `Retry` is one pass of the regeneration loop body.

Randomness is modelled as choice: `:|` picks any qualifying element. So
every property proved holds for every outcome of the random picks.

## Model

| member | source | states |
|---|---|---|
| Coords.NeighbourTopology | proj1.py:16-19 | For an in-bounds cell, a position fills one of its four slots exactly when it is an in-bounds axis-adjacent position; no position fills two slots |
| Coords.SlotIsNeighbour | proj1.py:16-19 | Every present slot of an in-bounds cell names an in-bounds, axis-adjacent position |
| Coords.TwoNeighbours | proj1.py:16-19 | On a board with k >= 2, every position has at least two distinct in-bounds neighbours |
| Coords.AllCoordsCount | proj1.py:90 | The board built for side k has exactly k*k positions |
| Coords.InBoundsCount | proj1.py:90 | Any set of in-bounds positions has at most k*k elements |
| GridCells.GridCell.constructor | proj1.py:11-24 | The cell's position is (row, col); left is present iff col > 0, right iff col < k-1, down iff row < k-1, up iff row > 0, each naming the adjacent position; all four flags start false |
| GridCells.OpenedIdempotent | proj1.py:26-27 | Opening twice is opening once; opening sets `open` and keeps the other three flags |
| GridCells.GridCell.OpenCell | proj1.py:26-27 | The flags become the opened flags of the old state; opening an already open cell changes nothing |
| GridCells.GridCell.SetOnFire | proj1.py:29-30 | Only `onFire` is set; the other flags keep their values |
| GridCells.AgentToggledTwice | proj1.py:32-33 | Toggling the agent flips `hasAgent`, and toggling twice restores the flags |
| GridCells.GridCell.ToggleAgent | proj1.py:32-33 | `hasAgent` is negated; the other flags keep their values |
| GridCells.GridCell.ToString | proj1.py:35-44 | The glyph has three characters. It is the closed glyph iff the cell is closed, the agent glyph iff open with an agent, the goal glyph iff open, no agent and a goal, the fire glyph iff open, no agent, no goal and on fire, and the empty glyph otherwise |
| MazeSpec.FlagSets | proj1.py:76-77 | A position is in the open set iff it is in bounds and its cell's `open` flag is set; it is passable iff it is also not on fire |
| MazeSpec.OneOpenMeaning | proj1.py:132-140 | Counting open present slots gives exactly one iff the cell has one open in-bounds neighbour and no other |
| MazeSpec.SelectMembers | proj1.py:142-147 | A filter keeps exactly the elements of its input that pass the test |
| MazeSpec.SelectIsSubList | proj1.py:142-147 | A filter's result is a sub-list of its input, in the input's order |
| MazeSpec.SubListSorted | proj1.py:72-86 | A sub-list of a list sorted in row-major order is sorted too |
| MazeSpec.OpenClosedPartition | proj1.py:72-86 | The open scan and the closed scan of a list together hold each element exactly as often as the list does |
| MazeSpec.OpenClosedCount | proj1.py:72-86 | The two scans' lengths add up to the list's length |
| MazeSpec.RowMajorMembers | proj1.py:74-75 | Visiting row after row, cell after cell, meets exactly the board's cells |
| MazeSpec.RowMajorOrder | proj1.py:74-75 | That visit has k*k cells in strictly increasing row-major order of position |
| MazeSpec.BoardScanMembers | proj1.py:72-86 | A scan of the whole board keeps exactly the board's cells that pass the test |
| MazeSpec.BoardScanSorted | proj1.py:72-86 | A scan of the whole board lists its cells in strictly increasing row-major order of position |
| MazeSpec.CandidateMember | proj1.py:94 | A cell is a carving candidate iff it is a board cell, closed, and has exactly one open neighbour |
| MazeSpec.CandidatesEmptyIffStable | proj1.py:94-96 | The carving loop's exit test holds exactly when no closed position has exactly one open neighbour |
| MazeSpec.DeadEndMember | proj1.py:100 | A cell is a dead end iff it is a board cell, open, and has exactly one open neighbour |
| MazeSpec.DeadEndsOpen | proj1.py:100-105 | Every dead end is already open, so reopening one changes nothing |
| MazeSpec.WitnessedGrow | proj1.py:97 | Opening a neighbour of an open position keeps every open position reachable from the seed through open positions |
| MazeSpec.CarveRound | proj1.py:93-97 | A carving candidate is a closed in-bounds position with exactly one open neighbour; opening it adds one position, and the open set stays connected to the seed and stays a tree |
| MazeSpec.TreeGrow | proj1.py:93-97 | Opening a closed position whose only open neighbour is n, with n as its parent, keeps the open positions a tree rooted at the seed |
| MazeSpec.TreePath | proj1.py:93-97 | Following parent links from any open position of a tree gives a path from the seed to it through open positions |
| MazeSpec.TreeConnected | proj1.py:93-97 | A tree of in-bounds open positions is connected to its root |
| MazeSpec.NoOpenSquare | proj1.py:93-97 | In a tree of open positions, no 2-by-2 block of positions is fully open |
| MazeSpec.OpenBoardNotTree | proj1.py:93-97 | The fully open 2-by-2 board is not a tree, whatever its root |
| MazeSpec.ThreeOpen | proj1.py:91-97 | A stable open set connected to its seed on a board with k >= 2 has at least three positions, enough for agent, goal and fire |
| MazeSpec.PassableSetIs | proj1.py:177 | The passable set holds exactly the in-bounds positions whose cell is open and not on fire |
| MazeSpec.SearchStart | proj1.py:160-161 | The search's first state (stack and visited set holding the start) meets the search invariant |
| MazeSpec.SearchPop | proj1.py:164 | Popping the top keeps the invariant with the popped position waiting to be expanded |
| MazeSpec.SearchPush | proj1.py:175-182 | Visiting and pushing an unvisited passable neighbour keeps the invariant; the neighbour is a board position |
| MazeSpec.GoalNext | proj1.py:178-179 | A passable goal next to a visited position is reachable from the start |
| MazeSpec.SlotsExpanded | proj1.py:167-173 | Once all four slots of a position have been looked at, all of its passable neighbours are visited |
| MazeSpec.ClosedBlocks | proj1.py:163-184 | Nothing outside a set that holds the start and that no step leaves is reachable |
| MazeSpec.SearchExhausted | proj1.py:184 | With the stack empty and the goal not visited, the goal is unreachable |
| MazeSpec.VisitedBound | proj1.py:163-182 | The visited positions are no more than the board's k*k positions |
| MazeSpec.JoinGlyphs | proj1.py:192 | Joining three-character glyphs by single spaces gives 4n-1 characters, with glyph c at offset 4c followed by a space unless it is the last |
| MazeSpec.LinesAt | proj1.py:191-192 | Line r of the dump starts right after the earlier lines and is followed by a line break |
| MazeSpec.BoardTextGlyph | proj1.py:189-193 | The dump of a k-by-k board has 4k*k characters; row r starts at 4kr; cell (r, c)'s glyph is at offset 4c of it; glyphs are separated by spaces and the row ends with a line break |
| Maze.MarkedFlags | proj1.py:116-128 | On a fresh open cell, placing the agent, the goal or the fire sets that one flag and no other |
| Maze.FreshBoard | proj1.py:90 | A board of fresh cells has no open position and no marks |
| Maze.PlacedCells | proj1.py:52-54 | Three distinct cells marked agent, goal and fire, on a board whose other cells carry no mark, make a complete placement at their positions |
| Maze.PlacedMarks | proj1.py:52-54 | After a placement, the agent's cell is the only cell with an agent and the goal's cell the only one with a goal button; neither burns; the fire set is exactly the set of burning cells |
| Maze.NewRow | proj1.py:90 | A new row of k fresh cells, cell c built for position (row, c) |
| Maze.NewBoard | proj1.py:90 | A new k-by-k board of fresh cells, each built for its position |
| Maze.Grid.constructor | proj1.py:47-54 | One generation attempt: a carved, connected, stable maze whose open cells form a tree, with the open cells listed and agent, goal and fire on three distinct open cells; no other cell carries a mark |
| Maze.Grid.Generate | proj1.py:58-62 | The same generation attempt on an existing grid object, with a fresh board: carved, connected, stable and a tree, the open cells listed, agent, goal and fire on three distinct open cells and no other cell marked |
| Maze.Grid.Retry | proj1.py:55-62 | One more attempt; the result says whether the goal is reachable from the agent on the new board |
| Maze.Construct | proj1.py:47-62 | Build a grid and retry while the goal is unreachable (up to a bound); the result says whether the final grid's goal is reachable, and the grid keeps all generation invariants |
| Maze.Grid.GetCell | proj1.py:65-70 | A cell is returned iff the position is in bounds, and it is the board's cell at that position |
| Maze.Grid.GetOpenCells | proj1.py:72-78 | The open cells of the board, in row-major order |
| Maze.Grid.GetClosedCells | proj1.py:80-86 | The closed cells of the board, in row-major order |
| Maze.Grid.HasOneOpenNeighbour | proj1.py:132-140 | True iff exactly one of the cell's present slots names an open position |
| Maze.Grid.FindCellsWithOneOpenNeighbour | proj1.py:142-147 | The input cells with exactly one open neighbour, in input order |
| Maze.Grid.CarveCandidates | proj1.py:94 | The closed cells of the board with exactly one open neighbour, in row-major order |
| Maze.Grid.OpenOnBoard | proj1.py:97 | Opening a board cell adds exactly its position to the open set and places no mark |
| Maze.Grid.CarveOnce | proj1.py:93-97 | One carving round: either no candidate is left and the open set is stable, or one new in-bounds position, which had exactly one open neighbour, joins the open set; the open positions stay connected to the seed and stay a tree |
| Maze.Grid.Carve | proj1.py:93-97 | From the seed alone, carving ends with a stable open set, connected to the seed and a tree rooted at it, after at most k*k-1 rounds, each adding one position |
| Maze.Grid.FindDeadEnds | proj1.py:100 | The open cells with exactly one open neighbour, in row-major order |
| Maze.ReopenOne | proj1.py:104-105 | One arbitrary dead end leaves the list, which loses exactly that one occurrence, and no cell changes |
| Maze.Grid.AdjustDeadEnds | proj1.py:100-106 | Half the dead ends (rounded down) are taken out and reopened; the rest remain; together they are the dead-end list; no cell changes |
| Maze.Grid.InitializeGrid | proj1.py:89-108 | A fresh k-by-k board with no marks whose open set holds the seed, is stable, is connected to the seed and is a tree rooted at it |
| Maze.Grid.InitEntity | proj1.py:110-130 | The chosen cell is in the open list and was eligible: no agent for the agent; no agent and no goal for the goal; no agent, goal or fire for the fire. Its flags get the entity's mark and no other cell changes. The agent and goal return the cell's position, the fire the singleton set of the cell |
| Maze.Grid.PlaceOne | proj1.py:110-130 | A placement on an unmarked open cell outside the already-placed ones marks it with just this entity and opens or closes nothing |
| Maze.Grid.PlaceAll | proj1.py:52-54 | Agent, goal and fire land on three distinct open cells, each carrying just its own mark; every other cell keeps its flags |
| Maze.Grid.Populate | proj1.py:51-54 | The open cells are listed in row-major order, the placement is complete with no other cell marked, and the open set is unchanged |
| Maze.Grid.PlaceOnBoard | proj1.py:52-54 | The placement is complete with no other cell marked, and the open set is unchanged |
| Maze.Grid.AgentToGoalExists | proj1.py:153-184 | True iff the goal is reachable from the agent by 4-adjacent steps onto open cells that are not on fire (true when they coincide) |
| Maze.Grid.SearchFrom | proj1.py:160-184 | For distinct start and goal, the depth-first search answers exactly whether the goal is reachable, after at most k*k pops |
| Maze.Grid.SearchStep | proj1.py:164-182 | One round either proves the goal reachable or keeps the invariant, and the visited set grows or the stack shrinks |
| Maze.Grid.VisitNeighbours | proj1.py:167-182 | Looking at the popped cell's four slots either meets the goal (then reachable) or visits every passable unvisited neighbour, keeping the invariant |
| Maze.Grid.ToString | proj1.py:189-193 | The text is the board dump: each row's glyphs joined by single spaces, each row followed by a line break |

## Left out

- Randomness: `random.randint`, `random.choice` and `random.randrange` are modelled as arbitrary choice (`:|`). Nothing is said about their distribution.
- Maze.Construct: the source retries without bound until the goal is reachable (proj1.py:55-62). That ends only with probability one. The model retries at most `maxAttempts` times and reports whether the final grid is solvable.
- Maze.Grid.InitEntity: the source's `while True` placement loops re-draw until an eligible cell comes up (proj1.py:113, 121). The model picks an eligible cell directly, and requires that one exists. A constructor for k >= 2 always provides one, because `ThreeOpen` shows the maze has at least three open cells.
- Maze.Grid.constructor: requires k >= 2. With k = 1 the only open cell receives the agent, so the goal placement loop of the source never finds a cell and runs forever (proj1.py:121-130). With k <= 0, `random.randint(0, k - 1)` raises `ValueError` (proj1.py:91); the model does not model that error.
- The parameter `q` is stored (proj1.py:47-49, 56-57) and never read, also not by `initializeGrid`.
- `print` calls (the out-of-bounds message at proj1.py:70, the logs at 101, 106, 118, 125, 129) are left out. `GetCell` returns `None` where the source prints and returns `None`.
- `getCell` is also called by the `coord=` keyword (proj1.py:66-67); no caller in the core does so, and the model gives positions only as row and column.
- Maze.Grid.AgentToGoalExists: `agentToGoalExists` reads the current cell's slots through its `grid` argument but the neighbours' flags through `self.grid` (proj1.py:165, 176). The model keeps the two apart: the argument `board` gives the slots, and the grid's own board gives the flags. The search indexes that board directly at positions the slots name, which are always in bounds; the source looks them up with `getCell`, which returns the same cell there.
- The dead-end pass re-opens cells that are already open (proj1.py:100-105), so it changes no cell. The model keeps this literal behaviour and proves it changes nothing.
- `VisualizeGrid` (the Dash and Plotly page) and the `__main__` driver: these are UI, threads and a web browser, which the model does not cover.
- Maze.Grid.ToString: the model builds each row's line with the pure `Join` of the row's glyphs. The source's generator expression inside `" ".join` is an expression, not a loop that updates state.
