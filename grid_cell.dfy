/** One board position: its fixed neighbour topology and its mutable state flags. */
module GridCells {
  import opened Coords

  /** The four state flags of a cell, as one value. */
  datatype Flags = Flags(open: bool, goalButton: bool, onFire: bool, hasAgent: bool)

  /** The flags of a freshly built cell. */
  const Fresh: Flags := Flags(false, false, false, false)

  // What each state change does to the flags.
  function Opened(s: Flags): Flags { s.(open := true) }
  function Ignited(s: Flags): Flags { s.(onFire := true) }
  function AgentToggled(s: Flags): Flags { s.(hasAgent := !s.hasAgent) }
  function GoalMarked(s: Flags): Flags { s.(goalButton := true) }

  /** Opening is idempotent and touches nothing but `open`. */
  lemma OpenedIdempotent(s: Flags)
    ensures Opened(Opened(s)) == Opened(s)
    ensures Opened(s).open
    ensures Opened(s).goalButton == s.goalButton && Opened(s).onFire == s.onFire && Opened(s).hasAgent == s.hasAgent
  {
  }

  /** Toggling the agent twice restores the flags. */
  lemma AgentToggledTwice(s: Flags)
    ensures AgentToggled(AgentToggled(s)) == s
    ensures AgentToggled(s).hasAgent != s.hasAgent
  {
  }

  // The glyphs of the textual dump.
  const ClosedGlyph: string := "[\U{25A0}]"
  const AgentGlyph: string := "[P]"
  const GoalGlyph: string := "[G]"
  const FireGlyph: string := "[\U{25A1}]"
  const EmptyGlyph: string := "[ ]"

  class GridCell {
    const coord: Coord
    const row: int
    const col: int
    const left: Option<Coord>
    const right: Option<Coord>
    const down: Option<Coord>
    const up: Option<Coord>

    var open: bool
    var goalButton: bool
    var onFire: bool
    var hasAgent: bool

    /** The neighbour slots in the order the cell lists them. */
    function Slots(): seq<Option<Coord>> {
      [left, right, down, up]
    }

    /** The cell sits at an in-bounds position of a k-by-k board and its slots were computed for k. */
    predicate PlacedIn(k: int) {
      InBounds(coord, k) && coord == (row, col) &&
      left == LeftOf(coord) && right == RightOf(coord, k) && down == DownOf(coord, k) && up == UpOf(coord)
    }

    function State(): Flags
      reads this
    {
      Flags(open, goalButton, onFire, hasAgent)
    }

    /** A new cell at (row, col): slots within [0, k) and all flags false. */
    constructor (row: int, col: int, k: int)
      ensures coord == (row, col) && this.row == row && this.col == col
      ensures left == (if col > 0 then Some((row, col - 1)) else None)
      ensures right == (if col < k - 1 then Some((row, col + 1)) else None)
      ensures down == (if row < k - 1 then Some((row + 1, col)) else None)
      ensures up == (if row > 0 then Some((row - 1, col)) else None)
      ensures Slots() == NeighbourSlots(coord, k)
      ensures State() == Fresh
    {
      coord := (row, col);
      this.row := row;
      this.col := col;
      left := if col > 0 then Some((row, col - 1)) else None;
      right := if col < k - 1 then Some((row, col + 1)) else None;
      down := if row < k - 1 then Some((row + 1, col)) else None;
      up := if row > 0 then Some((row - 1, col)) else None;
      open := false;
      goalButton := false;
      onFire := false;
      hasAgent := false;
    }

    /** Opening an open cell changes nothing at all. */
    method OpenCell()
      modifies this
      ensures State() == Opened(old(State()))
      ensures old(open) ==> unchanged(this)
    {
      open := true;
    }

    method SetOnFire()
      modifies this
      ensures State() == Ignited(old(State()))
    {
      onFire := true;
    }

    method ToggleAgent()
      modifies this
      ensures State() == AgentToggled(old(State()))
    {
      hasAgent := !hasAgent;
    }

    /**
      * The cell's glyph in the textual dump. Precedence: closed, then agent,
      * then goal, then fire, then open and empty; the five glyphs are
      * distinct, so the glyph tells which case holds.
      */
    function ToString(): (r: string)
      reads this
      ensures |r| == 3
      ensures r == ClosedGlyph <==> !open
      ensures r == AgentGlyph <==> open && hasAgent
      ensures r == GoalGlyph <==> open && !hasAgent && goalButton
      ensures r == FireGlyph <==> open && !hasAgent && !goalButton && onFire
      ensures r == EmptyGlyph <==> open && !hasAgent && !goalButton && !onFire
    {
      if !open then ClosedGlyph
      else if hasAgent then AgentGlyph
      else if goalButton then GoalGlyph
      else if onFire then FireGlyph
      else EmptyGlyph
    }
  }
}
