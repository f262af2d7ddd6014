/**
 * The puzzle object: its fixed dimensions, the grid it updates in place,
 * the move replay, the read-only scans, and the solver phases that place
 * one tile at a time while keeping what is already solved.
 */
module PuzzleSolver {
  import opened PuzzleGrid
  import opened PuzzleMoves
  import opened PuzzleMacros
  import opened PuzzleFrames
  import opened PuzzleWalks
  import opened PuzzleApproach
  import opened PuzzlePhases

  /** A Python index: a negative index counts from the end. */
  function PyIndex(i: int, n: int): (k: int)
    requires -n <= i < n
    ensures 0 <= k < n && (k == i || k == i + n)
  {
    if i < 0 then i + n else i
  }

  /**
   * How a replay ended: every character applied, no blank to move, or an
   * assertion failure at character `index` after the earlier characters
   * were applied.
   */
  datatype Outcome = Applied | NoBlank | Rejected(index: nat, fault: Fault)

  class Puzzle {
    const height: int
    const width: int
    var grid: Grid

    ghost predicate Valid()
      reads this
    {
      Shape(grid, height, width)
    }

    /**
     * A solved puzzle, or a copy of the first `h` rows and `w` columns of
     * `initial`.
     */
    constructor (h: int, w: int, initial: Option<Grid>)
      requires 0 <= h && 0 <= w
      requires initial.Some? ==>
        |initial.value| >= h && forall r :: 0 <= r < h ==> |initial.value[r]| >= w
      ensures height == h && width == w && Valid()
      ensures initial.None? ==> grid == SolvedGrid(h, w)
      ensures initial.Some? ==>
        forall r, c :: 0 <= r < h && 0 <= c < w ==> grid[r][c] == initial.value[r][c]
    {
      height := h;
      width := w;
      grid := SolvedGrid(h, w);
      new;
      if initial.Some? {
        var row := 0;
        while row < h
          invariant 0 <= row <= h && Shape(grid, h, w)
          invariant forall r, c :: 0 <= r < row && 0 <= c < w ==> grid[r][c] == initial.value[r][c]
        {
          var col := 0;
          while col < w
            invariant 0 <= col <= w && Shape(grid, h, w)
            invariant forall r, c :: 0 <= r < row && 0 <= c < w ==> grid[r][c] == initial.value[r][c]
            invariant forall c :: 0 <= c < col ==> grid[row][c] == initial.value[row][c]
          {
            grid := grid[row := grid[row][col := initial.value[row][col]]];
            col := col + 1;
          }
          row := row + 1;
        }
      }
    }

    /** The number in a cell; negative indices count from the end. */
    function GetNumber(row: int, col: int): (v: int)
      reads this
      requires Valid() && -height <= row < height && -width <= col < width
      ensures 0 <= row && 0 <= col ==> v == grid[row][col]
      ensures row < 0 ==> v == grid[row + height][PyIndex(col, width)]
      ensures col < 0 ==> v == grid[PyIndex(row, height)][col + width]
    {
      grid[PyIndex(row, height)][PyIndex(col, width)]
    }

    /** Writes one cell; every other cell keeps its number. */
    method SetNumber(row: int, col: int, value: int)
      requires Valid() && -height <= row < height && -width <= col < width
      modifies this
      ensures Valid() && GetNumber(row, col) == value
      ensures forall r, c ::
        (0 <= r < height && 0 <= c < width && (r, c) != (PyIndex(row, height), PyIndex(col, width)))
        ==> grid[r][c] == old(grid)[r][c]
    {
      var r, c := PyIndex(row, height), PyIndex(col, width);
      grid := grid[r := grid[r][c := value]];
    }

    /** A new puzzle with the same dimensions and the same numbers. */
    method Clone() returns (p: Puzzle)
      requires Valid()
      ensures fresh(p) && p.Valid()
      ensures p.height == height && p.width == width && p.grid == grid
    {
      p := new Puzzle(height, width, Some(grid));
      forall r | 0 <= r < height
        ensures p.grid[r] == grid[r]
      {
      }
    }

    /**
     * The first cell, row by row, holding the number that belongs at
     * (solvedRow, solvedCol) when the puzzle is solved; None where the
     * source fails its "not found" assertion.
     */
    method CurrentPosition(solvedRow: int, solvedCol: int) returns (pos: Option<Pos>)
      requires Valid()
      ensures pos == Find(grid, height, width, SolvedValue(width, solvedRow, solvedCol))
    {
      var value := solvedCol + width * solvedRow;
      var row := 0;
      while row < height
        invariant 0 <= row <= height
        invariant FindFrom(grid, height, width, value, row, 0) == Find(grid, height, width, value)
      {
        var col := 0;
        while col < width
          invariant 0 <= col <= width
          invariant FindFrom(grid, height, width, value, row, col) == Find(grid, height, width, value)
        {
          if grid[row][col] == value {
            return Some(Pos(row, col));
          }
          col := col + 1;
        }
        row := row + 1;
      }
      return None;
    }

    /**
     * Compares every row below targetRow with a freshly built solved puzzle;
     * a negative row index reads the row it denotes in Python.
     */
    method CheckSolvedBelow(targetRow: int) returns (b: bool)
      requires Valid() && -height - 1 <= targetRow
      ensures b == SolvedBelow(grid, height, width, targetRow)
    {
      var solved := new Puzzle(height, width, None);
      if targetRow + 1 <= height - 1 {
        var row := targetRow + 1;
        while row < height
          invariant targetRow + 1 <= row <= height
          invariant forall i, j :: targetRow + 1 <= i < row && 0 <= j < width ==>
            grid[PyIndex(i, height)][j] == SolvedValue(width, PyIndex(i, height), j)
        {
          var col := 0;
          while col < width
            invariant 0 <= col <= width
            invariant forall j :: 0 <= j < col ==>
              grid[PyIndex(row, height)][j] == SolvedValue(width, PyIndex(row, height), j)
          {
            if solved.GetNumber(row, col) != GetNumber(row, col) {
              return false;
            }
            col := col + 1;
          }
          row := row + 1;
        }
        forall i, j | 0 <= i < height && targetRow < i && 0 <= j < width
          ensures grid[i][j] == SolvedValue(width, i, j)
        {
          assert PyIndex(i, height) == i;
        }
      }
      return true;
    }

    /** Compares row targetRow to the right of targetCol with a solved puzzle. */
    method CheckSolvedRight(targetRow: int, targetCol: int) returns (b: bool)
      requires Valid() && -height <= targetRow < height && -width - 1 <= targetCol
      ensures b == SolvedRight(grid, height, width, PyIndex(targetRow, height), targetCol)
    {
      var solved := new Puzzle(height, width, None);
      ghost var r := PyIndex(targetRow, height);
      if targetCol + 1 <= width - 1 {
        var col := targetCol + 1;
        while col < width
          invariant targetCol + 1 <= col <= width
          invariant forall j :: targetCol + 1 <= j < col ==>
            grid[r][PyIndex(j, width)] == SolvedValue(width, r, PyIndex(j, width))
        {
          if solved.GetNumber(targetRow, col) != GetNumber(targetRow, col) {
            return false;
          }
          col := col + 1;
        }
        forall j | 0 <= j < width && targetCol < j
          ensures grid[r][j] == SolvedValue(width, r, j)
        {
          assert PyIndex(j, width) == j;
        }
      }
      return true;
    }

    /** Compares one cell with a solved puzzle. */
    method CheckSolvedAt(targetRow: int, targetCol: int) returns (b: bool)
      requires Valid() && -height <= targetRow < height && -width <= targetCol < width
      ensures b == SolvedAt(grid, height, width, PyIndex(targetRow, height), PyIndex(targetCol, width))
    {
      var solved := new Puzzle(height, width, None);
      if solved.GetNumber(targetRow, targetCol) == GetNumber(targetRow, targetCol) {
        return true;
      } else {
        return false;
      }
    }

    /**
     * The blank is at (targetRow, targetCol), the rows below are solved and
     * so is the rest of its row to the right.
     */
    method CheckLowerRow(targetRow: int, targetCol: int) returns (b: bool)
      requires Valid() && Find(grid, height, width, 0).Some?
      ensures b == LowerRowInvariant(grid, height, width, targetRow, targetCol)
    {
      var zero := CurrentPosition(0, 0);
      if zero.value != Pos(targetRow, targetCol) {
        return false;
      }
      var below := CheckSolvedBelow(targetRow);
      if !below {
        return false;
      }
      var right := CheckSolvedRight(targetRow, targetCol);
      if !right {
        return false;
      }
      return true;
    }

    /**
     * The blank is at (0, targetCol), the rows below row 1 are solved, and
     * row 1 is solved from targetCol on.
     */
    method CheckRow0(targetCol: int) returns (b: bool)
      requires Valid() && Find(grid, height, width, 0).Some?
      requires Find(grid, height, width, 0) == Some(Pos(0, targetCol)) ==> 2 <= height
      ensures b == Row0Invariant(grid, height, width, targetCol)
    {
      var zero := CurrentPosition(0, 0);
      if !(zero.value.row == 0 && zero.value.col == targetCol) {
        return false;
      }
      var below := CheckSolvedBelow(1);
      if !below {
        return false;
      }
      var right := CheckSolvedRight(1, targetCol);
      if !right {
        return false;
      }
      var at := CheckSolvedAt(1, targetCol);
      if !at {
        return false;
      }
      return true;
    }

    /** The blank is at (1, targetCol) and the lower-row check holds there. */
    method CheckRow1(targetCol: int) returns (b: bool)
      requires Valid() && Find(grid, height, width, 0).Some?
      ensures b == Row1Invariant(grid, height, width, targetCol)
    {
      var zero := CurrentPosition(0, 0);
      if !(zero.value.row == 1 && zero.value.col == targetCol) {
        return false;
      }
      var lower := CheckLowerRow(1, targetCol);
      if !lower {
        return false;
      }
      return true;
    }

    /**
     * Replays a move string from the blank's cell, one exchange at a time.
     * The grid afterwards is the replay's grid, including when the replay
     * stops at a character that is not a direction or leads off the grid.
     */
    method UpdatePuzzle(moves: string) returns (status: Outcome)
      requires Valid()
      modifies this
      ensures Valid()
      ensures match Find(old(grid), height, width, 0)
        case None => status == NoBlank && grid == old(grid)
        case Some(z) =>
          var o := Run(old(grid), height, width, z, moves);
          && grid == o.grid
          && status == (if o.Done? then Applied else Rejected(o.index, o.fault))
    {
      var zero := CurrentPosition(0, 0);
      if zero.None? {
        return NoBlank;
      }
      ghost var g0, z0 := grid, zero.value;
      var zeroRow, zeroCol := zero.value.row, zero.value.col;
      var i := 0;
      while i < |moves|
        invariant 0 <= i <= |moves| && Valid() && InGrid(Pos(zeroRow, zeroCol), height, width)
        invariant RunFrom(grid, height, width, Pos(zeroRow, zeroCol), moves, i) == Run(g0, height, width, z0, moves)
      {
        var direction := moves[i];
        var nextRow, nextCol := zeroRow, zeroCol;
        if direction == 'l' {
          if !(zeroCol > 0) {
            return Rejected(i, OffGrid);
          }
          nextCol := zeroCol - 1;
        } else if direction == 'r' {
          if !(zeroCol < width - 1) {
            return Rejected(i, OffGrid);
          }
          nextCol := zeroCol + 1;
        } else if direction == 'u' {
          if !(zeroRow > 0) {
            return Rejected(i, OffGrid);
          }
          nextRow := zeroRow - 1;
        } else if direction == 'd' {
          if !(zeroRow < height - 1) {
            return Rejected(i, OffGrid);
          }
          nextRow := zeroRow + 1;
        } else {
          return Rejected(i, BadDirection);
        }
        ghost var g, z := grid, Pos(zeroRow, zeroCol);
        // the blank's cell takes the neighbour's tile, then the neighbour's cell takes the blank
        grid := grid[zeroRow := grid[zeroRow][zeroCol := grid[nextRow][nextCol]]];
        grid := grid[nextRow := grid[nextRow][nextCol := 0]];
        zeroRow, zeroCol := nextRow, nextCol;
        RunFromStep(g, grid, height, width, z, Pos(zeroRow, zeroCol), moves, i);
        i := i + 1;
      }
      return Applied;
    }

    // -------------------------------------------------------------------
    // Walking the target tile with the blank immediately left of it.
    // Ghost p and e are where the tile and the blank are on entry; the
    // ghost results are where they are on exit.

    /**
     * Moves the tile for (targetRow, targetCol) down with "druld" until it
     * reaches specifiedRow, keeping the blank immediately left of it.
     */
    method MoveTargetDownTo(specifiedRow: int, targetRow: int, targetCol: int, ghost p: Pos, ghost e: Pos)
      returns (result: string, ghost p': Pos, ghost e': Pos)
      requires Valid() && IsPermutation(grid, height, width)
      requires InGrid(p, height, width) && grid[p.row][p.col] == SolvedValue(width, targetRow, targetCol)
      requires InGrid(e, height, width) && grid[e.row][e.col] == 0
      requires p.row <= specifiedRow < height
      requires p.row < specifiedRow ==> e == LeftOf(p)
      modifies this
      ensures Valid() && IsPermutation(grid, height, width)
      ensures p' == Pos(specifiedRow, p.col) && grid[p'.row][p'.col] == SolvedValue(width, targetRow, targetCol)
      ensures InGrid(e', height, width) && grid[e'.row][e'.col] == 0
      ensures p.row < specifiedRow ==> e' == LeftOf(p')
      ensures p.row == specifiedRow ==> e' == e && grid == old(grid)
      ensures Run(old(grid), height, width, e, result) == Done(grid, e')
      ensures SameOutside(old(grid), grid, height, width, Box(p.row, specifiedRow, p.col - 1, p.col))
    {
      hide Run, RunFrom, Find, FindFrom, IsPermutation, SameOutside;
      ghost var v, g0 := SolvedValue(width, targetRow, targetCol), grid;
      ghost var k: nat := 0;
      result := "";
      RunEmpty(grid, height, width, e);
      Located(grid, height, width, p, v);
      var tile := CurrentPosition(targetRow, targetCol);
      var tileRow := tile.value.row;
      while tileRow != specifiedRow
        invariant Valid() && tileRow == p.row + k <= specifiedRow && result == Repeat("druld", k)
        invariant grid == Run(g0, height, width, e, result).grid
        decreases specifiedRow - tileRow
      {
        DownWalkNext(g0, height, width, p, k);
        var applied := UpdatePuzzle("druld");
        result := result + "druld";
        k := k + 1;
        tile := CurrentPosition(targetRow, targetCol);
        tileRow := tile.value.row;
      }
      DownWalkDone(g0, height, width, p, e, specifiedRow);
      p', e' := Pos(specifiedRow, p.col), Run(g0, height, width, e, result).zero;
    }

    /** MoveTargetDownTo with the target's own row as the row to reach. */
    method MoveTargetDown(targetRow: int, targetCol: int, ghost p: Pos, ghost e: Pos)
      returns (result: string, ghost p': Pos, ghost e': Pos)
      requires Valid() && IsPermutation(grid, height, width)
      requires InGrid(p, height, width) && grid[p.row][p.col] == SolvedValue(width, targetRow, targetCol)
      requires InGrid(e, height, width) && grid[e.row][e.col] == 0
      requires p.row <= targetRow < height
      requires p.row < targetRow ==> e == LeftOf(p)
      modifies this
      ensures Valid() && IsPermutation(grid, height, width)
      ensures p' == Pos(targetRow, p.col) && grid[p'.row][p'.col] == SolvedValue(width, targetRow, targetCol)
      ensures InGrid(e', height, width) && grid[e'.row][e'.col] == 0
      ensures p.row < targetRow ==> e' == LeftOf(p')
      ensures p.row == targetRow ==> e' == e && grid == old(grid)
      ensures Run(old(grid), height, width, e, result) == Done(grid, e')
      ensures SameOutside(old(grid), grid, height, width, Box(p.row, targetRow, p.col - 1, p.col))
    {
      result, p', e' := MoveTargetDownTo(targetRow, targetRow, targetCol, p, e);
    }

    /**
     * Moves the tile right with "urrdl", through the row above, until it
     * reaches specifiedCol, keeping the blank immediately left of it.
     */
    method MoveTargetRightTo(specifiedCol: int, targetRow: int, targetCol: int, ghost p: Pos, ghost e: Pos)
      returns (result: string, ghost p': Pos, ghost e': Pos)
      requires Valid() && IsPermutation(grid, height, width)
      requires InGrid(p, height, width) && grid[p.row][p.col] == SolvedValue(width, targetRow, targetCol)
      requires InGrid(e, height, width) && grid[e.row][e.col] == 0
      requires p.col <= specifiedCol < width
      requires p.col < specifiedCol ==> e == LeftOf(p) && 1 <= p.row
      modifies this
      ensures Valid() && IsPermutation(grid, height, width)
      ensures p' == Pos(p.row, specifiedCol) && grid[p'.row][p'.col] == SolvedValue(width, targetRow, targetCol)
      ensures InGrid(e', height, width) && grid[e'.row][e'.col] == 0
      ensures p.col < specifiedCol ==> e' == LeftOf(p')
      ensures p.col == specifiedCol ==> e' == e && grid == old(grid)
      ensures Run(old(grid), height, width, e, result) == Done(grid, e')
      ensures SameOutside(old(grid), grid, height, width, Box(p.row - 1, p.row, p.col - 1, specifiedCol))
    {
      hide Run, RunFrom, Find, FindFrom, IsPermutation, SameOutside;
      ghost var v, g0 := SolvedValue(width, targetRow, targetCol), grid;
      ghost var k: nat := 0;
      result := "";
      RunEmpty(grid, height, width, e);
      Located(grid, height, width, p, v);
      var tile := CurrentPosition(targetRow, targetCol);
      var tileCol := tile.value.col;
      while tileCol != specifiedCol
        invariant Valid() && tileCol == p.col + k <= specifiedCol && result == Repeat("urrdl", k)
        invariant grid == Run(g0, height, width, e, result).grid
        decreases specifiedCol - tileCol
      {
        RightOverWalkNext(g0, height, width, p, k);
        var applied := UpdatePuzzle("urrdl");
        result := result + "urrdl";
        k := k + 1;
        tile := CurrentPosition(targetRow, targetCol);
        tileCol := tile.value.col;
      }
      RightToWalkDone(g0, height, width, p, e, specifiedCol);
      p', e' := Pos(p.row, specifiedCol), Run(g0, height, width, e, result).zero;
    }

    /**
     * Moves the tile right until it reaches its own column: "drrul"
     * through the row below while it is in row 0, "urrdl" through the row
     * above otherwise.
     */
    method MoveTargetRight(targetRow: int, targetCol: int, ghost p: Pos, ghost e: Pos)
      returns (result: string, ghost p': Pos, ghost e': Pos)
      requires Valid() && IsPermutation(grid, height, width)
      requires InGrid(p, height, width) && grid[p.row][p.col] == SolvedValue(width, targetRow, targetCol)
      requires InGrid(e, height, width) && grid[e.row][e.col] == 0
      requires p.col <= targetCol < width
      requires p.col < targetCol ==> e == LeftOf(p) && 2 <= height
      modifies this
      ensures Valid() && IsPermutation(grid, height, width)
      ensures p' == Pos(p.row, targetCol) && grid[p'.row][p'.col] == SolvedValue(width, targetRow, targetCol)
      ensures InGrid(e', height, width) && grid[e'.row][e'.col] == 0
      ensures p.col < targetCol ==> e' == LeftOf(p')
      ensures p.col == targetCol ==> e' == e && grid == old(grid)
      ensures Run(old(grid), height, width, e, result) == Done(grid, e')
      ensures SameOutside(old(grid), grid, height, width, Box(Max(p.row - 1, 0), Max(p.row, 1), p.col - 1, targetCol))
    {
      hide Run, RunFrom, Find, FindFrom, IsPermutation, SameOutside;
      ghost var v, g0 := SolvedValue(width, targetRow, targetCol), grid;
      ghost var m := RightMacro(p.row);
      ghost var k: nat := 0;
      result := "";
      RunEmpty(grid, height, width, e);
      Located(grid, height, width, p, v);
      var tile := CurrentPosition(targetRow, targetCol);
      var tileRow, tileCol := tile.value.row, tile.value.col;
      while tileCol != targetCol
        invariant Valid() && tileRow == p.row && tileCol == p.col + k <= targetCol && result == Repeat(m, k)
        invariant grid == Run(g0, height, width, e, result).grid
        decreases targetCol - tileCol
      {
        var moves := if tileRow == 0 then "drrul" else "urrdl";
        if tileRow == 0 {
          RightUnderWalkNext(g0, height, width, p, k);
        } else {
          RightOverWalkNext(g0, height, width, p, k);
        }
        var applied := UpdatePuzzle(moves);
        result := result + moves;
        k := k + 1;
        tile := CurrentPosition(targetRow, targetCol);
        tileRow, tileCol := tile.value.row, tile.value.col;
      }
      RightWalkDone(g0, height, width, p, e, targetCol);
      p', e' := Pos(p.row, targetCol), Run(g0, height, width, e, result).zero;
    }

    /**
     * Moves the tile left until it reaches its own column: "rulld" through
     * the row above, or "rdllu" through the row below while the blank is in
     * row 0. Each step records the moves it applied.
     */
    method MoveTargetLeft(targetRow: int, targetCol: int, ghost p: Pos, ghost e: Pos)
      returns (result: string, ghost p': Pos, ghost e': Pos)
      requires Valid() && IsPermutation(grid, height, width)
      requires InGrid(p, height, width) && grid[p.row][p.col] == SolvedValue(width, targetRow, targetCol)
      requires InGrid(e, height, width) && grid[e.row][e.col] == 0
      requires targetCol < p.col ==> e == LeftOf(p) && 1 <= targetCol && 2 <= height
      modifies this
      ensures Valid() && IsPermutation(grid, height, width)
      ensures p' == Pos(p.row, Min(p.col, targetCol)) && grid[p'.row][p'.col] == SolvedValue(width, targetRow, targetCol)
      ensures InGrid(e', height, width) && grid[e'.row][e'.col] == 0
      ensures targetCol < p.col ==> e' == LeftOf(p')
      ensures p.col <= targetCol ==> e' == e && grid == old(grid)
      ensures Run(old(grid), height, width, e, result) == Done(grid, e')
      ensures SameOutside(old(grid), grid, height, width, Box(Max(p.row - 1, 0), Max(p.row, 1), targetCol - 1, p.col))
    {
      hide Run, RunFrom, Find, FindFrom, IsPermutation, SameOutside;
      ghost var v, g0 := SolvedValue(width, targetRow, targetCol), grid;
      ghost var m := LeftMacro(p.row);
      ghost var k: nat := 0;
      result := "";
      RunEmpty(grid, height, width, e);
      Located(grid, height, width, p, v);
      Located(grid, height, width, e, 0);
      var zero := CurrentPosition(0, 0);
      var tile := CurrentPosition(targetRow, targetCol);
      var zeroRow, tileCol := zero.value.row, tile.value.col;
      while tileCol > targetCol
        invariant Valid() && tileCol == p.col - k && Min(p.col, targetCol) <= tileCol && result == Repeat(m, k)
        invariant grid == Run(g0, height, width, e, result).grid
        invariant targetCol < p.col ==> zeroRow == p.row
        decreases tileCol
      {
        var moves := if zeroRow > 0 then "rulld" else "rdllu";
        if zeroRow > 0 {
          LeftOverWalkNext(g0, height, width, p, k);
        } else {
          LeftUnderWalkNext(g0, height, width, p, k);
        }
        var applied := UpdatePuzzle(moves);
        result := result + moves;
        k := k + 1;
        zero := CurrentPosition(0, 0);
        tile := CurrentPosition(targetRow, targetCol);
        zeroRow, tileCol := zero.value.row, tile.value.col;
      }
      LeftWalkDone(g0, height, width, p, e, targetCol);
      p', e' := Pos(p.row, Min(p.col, targetCol)), Run(g0, height, width, e, result).zero;
    }
    /**
     * One round of ZeroToTarget's loop from the blank's cell z: the
     * vertical move `up` ("u", "d" or none), then the horizontal move
     * `across` ("l", "r" or none), each applied by its own replay.
     */
    method ApproachRoundStep(up: string, across: string, ghost z: Pos) returns (moves: string)
      requires Valid() && IsPermutation(grid, height, width)
      requires InGrid(z, height, width) && grid[z.row][z.col] == 0
      requires Run(grid, height, width, z, up + across).Done?
      modifies this
      ensures Valid() && moves == up + across
      ensures grid == Run(old(grid), height, width, z, up + across).grid
    {
      hide Run, RunFrom, Find, FindFrom, IsPermutation;
      ReplayedSplit(grid, height, width, z, up, across);
      moves := "";
      if up != "" {
        var applied := UpdatePuzzle(up);
        moves := up;
      }
      if across != "" {
        var applied := UpdatePuzzle(across);
        moves := moves + across;
      }
    }

    /**
     * Brings the blank from z0 to the cell t of the tile for (targetRow,
     * targetCol): each round up one row if below the tile, then one column
     * towards it, until the blank takes the tile's cell and the tile the
     * cell the blank left. Unless the tile fell into its home cell, the
     * blank then goes round to the tile's left: "rdl" or "ld" from above
     * it, "l" from its right. The end state is the one `Approached`
     * describes.
     */
    method ZeroToTarget(targetRow: int, targetCol: int, ghost z0: Pos, ghost t: Pos)
      returns (result: string, ghost p: Pos, ghost e: Pos)
      requires Valid() && IsPermutation(grid, height, width) && 2 <= width
      requires InGrid(z0, height, width) && grid[z0.row][z0.col] == 0
      requires InGrid(t, height, width) && grid[t.row][t.col] == SolvedValue(width, targetRow, targetCol)
      requires Before(t, z0)
      requires Pos(targetRow, targetCol) == z0 || !InApproach(t, z0, Pos(targetRow, targetCol))
      modifies this
      ensures Valid()
      ensures Approached(old(grid), grid, height, width, z0, t, SolvedValue(width, targetRow, targetCol),
                         Pos(targetRow, targetCol), result, p, e)
    {
      hide Run, RunFrom, Find, FindFrom, IsPermutation, SameOutside, Approaching, Approached, InApproach, FixedAfter, FixedRightOf;
      ghost var v, g0, home := SolvedValue(width, targetRow, targetCol), grid, Pos(targetRow, targetCol);
      ghost var q := t;
      result := "";
      ApproachStart(g0, height, width, z0, t, v);
      var tile := CurrentPosition(targetRow, targetCol);
      var zero := CurrentPosition(0, 0);
      var tileRow, tileCol := tile.value.row, tile.value.col;
      var zeroRow, zeroCol := zero.value.row, zero.value.col;
      while !(zeroRow == tileRow && zeroCol == tileCol)
        invariant Valid() && tileRow == t.row && tileCol == t.col && t.row <= zeroRow <= z0.row
        invariant Approaching(g0, grid, height, width, z0, t, v, result, Pos(zeroRow, zeroCol), q)
        decreases zeroRow - tileRow, Dist(zeroCol, tileCol)
      {
        // up or down, then left or right, each applied on its own
        var up := if zeroRow > tileRow then "u" else if zeroRow < tileRow then "d" else "";
        var across := if zeroCol > tileCol then "l" else if zeroCol < tileCol then "r" else "";
        ghost var z;
        z, q := ApproachRound(g0, grid, height, width, z0, t, v, result, Pos(zeroRow, zeroCol), q, up, across);
        var moves := ApproachRoundStep(up, across, Pos(zeroRow, zeroCol));
        result := result + moves;
        zero := CurrentPosition(0, 0);
        zeroRow, zeroCol := zero.value.row, zero.value.col;
      }
      ApproachFinish(g0, grid, height, width, z0, t, v, result, q, home);
      ghost var g1, s1 := grid, result;
      zero := CurrentPosition(0, 0);
      tile := CurrentPosition(targetRow, targetCol);
      zeroRow, zeroCol := zero.value.row, zero.value.col;
      tileRow, tileCol := tile.value.row, tile.value.col;
      var moves := "";
      if !(tileRow == targetRow && tileCol == targetCol) {
        if zeroRow == tileRow - 1 && zeroCol == tileCol {
          moves := if zeroCol == 0 then "rdl" else "ld";
        } else if zeroRow == tileRow && zeroCol == tileCol + 1 {
          moves := "l";
        }
      }
      assert moves == FinishMoves(t, q, home);
      if moves != "" {
        var applied := UpdatePuzzle(moves);
        result := result + moves;
      } else {
        assert result == s1 + moves;
      }
      p, e := FinalTile(t, q, home), Run(g1, height, width, t, moves).zero;
    }
    // -------------------------------------------------------------------
    // Phase solvers. Each asserts its entry invariant, places one tile and
    // leaves the next phase's invariant; the returned string replays the
    // phase from the blank's entry cell.

    /**
     * The second half of the interior phase: with the tile at p, no later
     * than its home (r, c), and the blank on its left (or above it when it
     * is already home), walk it left, right and down until it is home.
     * Nothing after (r, c) changes, and the blank ends left of the tile or
     * above it.
     */
    method MoveTargetHome(targetRow: int, targetCol: int, ghost p: Pos, ghost e: Pos)
      returns (result: string, ghost e': Pos)
      requires Valid() && IsPermutation(grid, height, width)
      requires 1 < targetRow && 0 < targetCol && InGrid(Pos(targetRow, targetCol), height, width)
      requires InGrid(p, height, width) && grid[p.row][p.col] == SolvedValue(width, targetRow, targetCol)
      requires InGrid(e, height, width) && grid[e.row][e.col] == 0
      requires !Before(Pos(targetRow, targetCol), p)
      requires e == LeftOf(p) || (p == Pos(targetRow, targetCol) && e == Above(p))
      modifies this
      ensures Valid() && IsPermutation(grid, height, width)
      ensures grid[targetRow][targetCol] == SolvedValue(width, targetRow, targetCol)
      ensures InGrid(e', height, width) && grid[e'.row][e'.col] == 0
      ensures e' == LeftOf(Pos(targetRow, targetCol)) || e' == Above(Pos(targetRow, targetCol))
      ensures Run(old(grid), height, width, e, result) == Done(grid, e')
      ensures FixedAfter(old(grid), grid, height, width, Pos(targetRow, targetCol))
    {
      hide Run, RunFrom, Find, FindFrom, IsPermutation, SameOutside, FixedAfter, FixedRightOf, Max;
      var s;
      ghost var g0 := grid;
      ghost var p2, e2, p3, e3, p4;
      result, p2, e2 := MoveTargetLeft(targetRow, targetCol, p, e);
      ghost var g1 := grid;
      s, p3, e3 := MoveTargetRight(targetRow, targetCol, p2, e2);
      ghost var g2 := grid;
      RunThen(g0, height, width, e, result, g1, e2, s, g2, e3);
      result := result + s;
      s, p4, e' := MoveTargetDown(targetRow, targetCol, p3, e3);
      RunThen(g0, height, width, e, result, g2, e3, s, grid, e');
      result := result + s;
      assert p3 == Pos(p.row, targetCol) && p4 == Pos(targetRow, targetCol);
      assert e' == LeftOf(p4) || (p == p4 && e' == e);
      HomeFrames(g0, g1, g2, grid, height, width, targetRow, targetCol, p, p2);
    }

    /**
     * Places the tile for (targetRow, targetCol), row > 1 and column > 0,
     * with the blank starting there: approach the tile, walk it left, right
     * and down to its home cell, and finish with the blank on its left.
     */
    method SolveInteriorTile(targetRow: int, targetCol: int) returns (result: string)
      requires Valid() && IsPermutation(grid, height, width)
      requires LowerRowInvariant(grid, height, width, targetRow, targetCol)
      requires 1 < targetRow && 0 < targetCol
      modifies this
      ensures Valid() && IsPermutation(grid, height, width)
      ensures LowerRowInvariant(grid, height, width, targetRow, targetCol - 1)
      ensures Run(old(grid), height, width, Pos(targetRow, targetCol), result)
              == Done(grid, Pos(targetRow, targetCol - 1))
    {
      hide Run, RunFrom, Find, FindFrom, IsPermutation, SameOutside, FixedAfter, FixedRightOf, LowerRowInvariant;
      ghost var home := Pos(targetRow, targetCol);
      ghost var t := TileBefore(grid, height, width, targetRow, targetCol);
      var s;
      ghost var p, e, e';
      result, p, e := ZeroToTarget(targetRow, targetCol, home, t);
      label Approached:
      s, e' := MoveTargetHome(targetRow, targetCol, p, e);
      RunThen(old(grid), height, width, home, result, old@Approached(grid), e, s, grid, e');
      result := result + s;
      FixedAfterChain(old(grid), old@Approached(grid), grid, height, width, home, home, home);
      InteriorFinish(old(grid), grid, height, width, targetRow, targetCol, result, e');
      var zero := CurrentPosition(0, 0);
      var tile := CurrentPosition(targetRow, targetCol);
      if zero.value.row == tile.value.row - 1 && zero.value.col == tile.value.col {
        var applied := UpdatePuzzle("ld");
        result := result + "ld";
      } else {
        assert result + "" == result;
      }
    }

    /**
     * Places the tile for (1, targetCol), column > 1, with the blank starting
     * there: approach the tile, walk it down to row 1 and right to its home
     * cell, and finish with the blank above it at (0, targetCol).
     */
    method SolveRow1Tile(targetCol: int) returns (result: string)
      requires Valid() && IsPermutation(grid, height, width)
      requires Row1Ready(grid, height, width, targetCol) && 1 < targetCol
      modifies this
      ensures Valid() && IsPermutation(grid, height, width)
      ensures Row0Ready(grid, height, width, targetCol)
      ensures Run(old(grid), height, width, Pos(1, targetCol), result) == Done(grid, Pos(0, targetCol))
    {
      hide Run, RunFrom, Find, FindFrom, IsPermutation, SameOutside, FixedAfter, FixedRightOf, Row1Ready, Row0Ready;
      ghost var home := Pos(1, targetCol);
      ghost var t := Row1Tile(grid, height, width, targetCol);
      var s;
      ghost var p, e, p2, e2, p3, e3;
      result, p, e := ZeroToTarget(1, targetCol, home, t);
      label Approached:
      s, p2, e2 := MoveTargetDown(1, targetCol, p, e);
      RunThen(old(grid), height, width, home, result, old@Approached(grid), e, s, grid, e2);
      result := result + s;
      label Down:
      s, p3, e3 := MoveTargetRight(1, targetCol, p2, e2);
      RunThen(old(grid), height, width, home, result, old@Down(grid), e2, s, grid, e3);
      result := result + s;
      Row1Frames(old@Approached(grid), old@Down(grid), grid, height, width, targetCol, p, p2);
      assert Max(Max(targetCol, t.col), 1) == targetCol;
      FixedAfterChain(old(grid), old@Approached(grid), grid, height, width, home, home, home);
      FixedRightOfChain(old(grid), old@Approached(grid), grid, height, width, targetCol, targetCol, targetCol);
      Row1Finish(old(grid), grid, height, width, targetCol, result, e3);
      var zero := CurrentPosition(0, 0);
      var tile := CurrentPosition(1, targetCol);
      if !(zero.value.row == tile.value.row - 1 && zero.value.col == tile.value.col) {
        var applied := UpdatePuzzle("ur");
        result := result + "ur";
      } else {
        assert result + "" == result;
      }
    }

    /**
     * The second half of the row-0 phase: with the tile for (0, targetCol)
     * in row 0 or 1 left of that column and the blank on its left, walk it
     * down to row 1 and right to column targetCol - 1, then let the 2x3 move
     * string lift it into (0, targetCol). The blank ends at
     * (1, targetCol - 1); (1, targetCol) and everything after it or right
     * of that column stay.
     */
    method MoveTargetIntoRow0(targetCol: int, ghost p: Pos, ghost e: Pos) returns (result: string)
      requires Valid() && IsPermutation(grid, height, width)
      requires 1 < targetCol < width && 2 <= height
      requires InGrid(p, height, width) && grid[p.row][p.col] == SolvedValue(width, 0, targetCol)
      requires InGrid(e, height, width) && grid[e.row][e.col] == 0 && e == LeftOf(p)
      requires p.row <= 1 && p.col < targetCol
      modifies this
      ensures Valid() && IsPermutation(grid, height, width)
      ensures grid[0][targetCol] == SolvedValue(width, 0, targetCol) && grid[1][targetCol - 1] == 0
      ensures grid[1][targetCol] == old(grid)[1][targetCol]
      ensures FixedAfter(old(grid), grid, height, width, Pos(1, targetCol))
      ensures FixedRightOf(old(grid), grid, height, width, targetCol)
      ensures Run(old(grid), height, width, e, result) == Done(grid, Pos(1, targetCol - 1))
    {
      hide Run, RunFrom, Find, FindFrom, IsPermutation, SameOutside, FixedAfter, FixedRightOf;
      Located(grid, height, width, e, 0);
      Located(grid, height, width, p, SolvedValue(width, 0, targetCol));
      var zero := CurrentPosition(0, 0);
      var tile := CurrentPosition(0, targetCol);
      var zeroRow, zeroCol, tileRow, tileCol := zero.value.row, zero.value.col, tile.value.row, tile.value.col;
      if zeroRow == tileRow - 1 && zeroCol == tileCol {
        // the approach leaves the blank left of the tile, never above it
        assert false;
      }
      // each walk starts by testing the condition the source tests before calling it
      var s;
      ghost var p2, e2, p3, e3;
      result, p2, e2 := MoveTargetDownTo(1, 0, targetCol, p, e);
      label Down:
      s, p3, e3 := MoveTargetRightTo(targetCol - 1, 0, targetCol, p2, e2);
      RunThen(old(grid), height, width, e, result, old@Down(grid), e2, s, grid, e3);
      result := result + s;
      label Right:
      PlaceRowZero(grid, height, width, 1, targetCol - 2);
      Replayed(grid, height, width, e3, "urdlurrdluldrruld");
      var applied := UpdatePuzzle("urdlurrdluldrruld");
      RunThen(old(grid), height, width, e, result, old@Right(grid), e3, "urdlurrdluldrruld", grid, Pos(1, targetCol - 1));
      result := result + "urdlurrdluldrruld";
      Row0Frames(old(grid), old@Down(grid), old@Right(grid), grid, height, width, targetCol, p, p2);
    }

    /**
     * Places the tile for (0, targetCol), column > 1, with the blank
     * starting there: "ld" takes the blank to (1, targetCol - 1); unless
     * that brought the tile home, approach the tile and lift it in with
     * MoveTargetIntoRow0. The blank ends at (1, targetCol - 1), ready for
     * the row-1 phase one column to the left.
     */
    method SolveRow0Tile(targetCol: int) returns (result: string)
      requires Valid() && IsPermutation(grid, height, width)
      requires Row0Ready(grid, height, width, targetCol) && 1 < targetCol
      modifies this
      ensures Valid() && IsPermutation(grid, height, width)
      ensures Row1Ready(grid, height, width, targetCol - 1)
      ensures Run(old(grid), height, width, Pos(0, targetCol), result) == Done(grid, Pos(1, targetCol - 1))
    {
      hide Run, RunFrom, Find, FindFrom, IsPermutation, SameOutside, FixedAfter, FixedRightOf, Row0Ready, Row1Ready, Row0Kept;
      ghost var v := SolvedValue(width, 0, targetCol);
      Row0Start(grid, height, width, targetCol);
      var applied := UpdatePuzzle("ld");
      result := "ld";
      label Moved:
      ghost var t := Pos(0, targetCol);
      if grid[0][targetCol] != v {
        t := Row0Tile(grid, height, width, targetCol);
      }
      Located(grid, height, width, t, v);
      var tile := CurrentPosition(0, targetCol);
      if !(tile.value.row == 0 && tile.value.col == targetCol) {
        var s, s2;
        ghost var p, e;
        s, p, e := ZeroToTarget(0, targetCol, Pos(1, targetCol - 1), t);
        assert Max(Max(targetCol - 1, t.col), 1) == targetCol - 1;
        label Approached:
        s2 := MoveTargetIntoRow0(targetCol, p, e);
        RunThen(old(grid), height, width, Pos(0, targetCol), result, old@Moved(grid), Pos(1, targetCol - 1), s, old@Approached(grid), e);
        result := result + s;
        RunThen(old(grid), height, width, Pos(0, targetCol), result, old@Approached(grid), e, s2, grid, Pos(1, targetCol - 1));
        result := result + s2;
        Row0KeptFrames(old@Moved(grid), old@Approached(grid), height, width, targetCol, targetCol - 1);
        Row0KeptFrames(old@Approached(grid), grid, height, width, targetCol, targetCol);
      }
      Row0Done(grid, height, width, targetCol);
    }

    /**
     * The second half of the column-0 phase: with the tile for
     * (targetRow, 0) right of column 0 and above row targetRow, and the
     * blank on its left, bring it down with "druld" and left with "rulld"
     * to (targetRow - 1, 1), then let the 3x2 move string drop it into
     * (targetRow, 0). The blank ends at (targetRow - 1, 1); nothing after
     * (targetRow, 0) changes.
     */
    method MoveTargetIntoCol0(targetRow: int, ghost p: Pos, ghost e: Pos) returns (result: string)
      requires Valid() && IsPermutation(grid, height, width)
      requires 1 < targetRow < height && 2 <= width
      requires InGrid(p, height, width) && grid[p.row][p.col] == SolvedValue(width, targetRow, 0)
      requires InGrid(e, height, width) && grid[e.row][e.col] == 0 && e == LeftOf(p)
      requires p.row < targetRow
      modifies this
      ensures Valid() && IsPermutation(grid, height, width)
      ensures grid[targetRow][0] == SolvedValue(width, targetRow, 0) && grid[targetRow - 1][1] == 0
      ensures FixedAfter(old(grid), grid, height, width, Pos(targetRow, 0))
      ensures Run(old(grid), height, width, e, result) == Done(grid, Pos(targetRow - 1, 1))
    {
      hide Run, RunFrom, Find, FindFrom, IsPermutation, SameOutside, FixedAfter, Col0Walking;
      ghost var q := p;
      Col0WalkStart(grid, height, width, targetRow, p);
      result := "";
      var zero := CurrentPosition(0, 0);
      var tile := CurrentPosition(targetRow, 0);
      var zeroRow, zeroCol, tileRow, tileCol := zero.value.row, zero.value.col, tile.value.row, tile.value.col;
      while !(tileRow == targetRow - 1 && tileCol == 1 && zeroRow == targetRow - 1 && zeroCol == 0)
        invariant Valid() && Col0Walking(old(grid), grid, height, width, targetRow, e, result, q)
        invariant tileRow == q.row && tileCol == q.col && zeroRow == q.row && zeroCol == q.col - 1
        decreases (targetRow - 1 - q.row) + (q.col - 1)
      {
        Col0Walked(old(grid), grid, height, width, targetRow, e, result, q);
        // the blank is always left of the tile here, so the source's
        // "dllu", "ulld" and "rdl" corrections never apply
        if zeroRow == tileRow && zeroCol == tileCol + 1 {
          assert false;
        } else if zeroRow == tileRow - 1 && zeroCol == tileCol {
          assert false;
        }
        if tileRow < targetRow - 1 {
          Col0Walked(old(grid), grid, height, width, targetRow, e, result, q);
          Col0WalkDown(old(grid), grid, height, width, targetRow, e, result, q);
          var applied := UpdatePuzzle("druld");
          result := result + "druld";
          q := Pos(q.row + 1, q.col);
        }
        if tileCol > 1 {
          Col0Walked(old(grid), grid, height, width, targetRow, e, result, q);
          Col0WalkLeft(old(grid), grid, height, width, targetRow, e, result, q);
          var applied := UpdatePuzzle("rulld");
          result := result + "rulld";
          q := Pos(q.row, q.col - 1);
        }
        Col0Walked(old(grid), grid, height, width, targetRow, e, result, q);
        tile := CurrentPosition(targetRow, 0);
        zero := CurrentPosition(0, 0);
        tileRow, tileCol, zeroRow, zeroCol := tile.value.row, tile.value.col, zero.value.row, zero.value.col;
      }
      Col0Walked(old(grid), grid, height, width, targetRow, e, result, q);
      Col0Place(old(grid), grid, height, width, targetRow, e, result);
      var applied := UpdatePuzzle("ruldrdlurdluurddlur");
      result := result + "ruldrdlurdluurddlur";
    }

    /**
     * Places the tile for (targetRow, 0), row > 1, with the blank starting
     * there: approach the tile, bring it home with MoveTargetIntoCol0 unless
     * the approach already did, then walk the blank right along row
     * targetRow - 1 to the last column, where the next interior phase starts.
     */
    method SolveCol0Tile(targetRow: int) returns (result: string)
      requires Valid() && IsPermutation(grid, height, width)
      requires LowerRowInvariant(grid, height, width, targetRow, 0)
      requires 1 < targetRow && 2 <= width
      modifies this
      ensures Valid() && IsPermutation(grid, height, width)
      ensures LowerRowInvariant(grid, height, width, targetRow - 1, width - 1)
      ensures Run(old(grid), height, width, Pos(targetRow, 0), result) == Done(grid, Pos(targetRow - 1, width - 1))
    {
      hide Run, RunFrom, Find, FindFrom, IsPermutation, SameOutside, FixedAfter, FixedRightOf, LowerRowInvariant;
      ghost var home := Pos(targetRow, 0);
      ghost var v := SolvedValue(width, targetRow, 0);
      ghost var t := TileBefore(grid, height, width, targetRow, 0);
      ghost var p, e;
      result, p, e := ZeroToTarget(targetRow, 0, home, t);
      label Approached:
      Located(grid, height, width, p, v);
      var tile := CurrentPosition(targetRow, 0);
      if !(tile.value.row == targetRow && tile.value.col == 0) {
        var s := MoveTargetIntoCol0(targetRow, p, e);
        RunThen(old(grid), height, width, home, result, old@Approached(grid), e, s, grid, Pos(targetRow - 1, 1));
        result := result + s;
        FixedAfterChain(old(grid), old@Approached(grid), grid, height, width, home, home, home);
        Located(grid, height, width, Pos(targetRow - 1, 1), 0);
      } else {
        Located(grid, height, width, e, 0);
      }
      var zero := CurrentPosition(0, 0);
      var zeroCol := zero.value.col;
      while zeroCol < width - 1
        invariant Valid() && Col0Closing(old(grid), grid, height, width, targetRow, result, zeroCol)
        decreases width - zeroCol
      {
        Col0RightStep(old(grid), grid, height, width, targetRow, result, zeroCol);
        var applied := UpdatePuzzle("r");
        result := result + "r";
        zero := CurrentPosition(0, 0);
        zeroCol := zero.value.col;
      }
      Col0Done(old(grid), grid, height, width, targetRow, result);
    }

    /**
     * Solves the top-left 2x2 block with the blank starting at (1, 1): "lu"
     * takes the blank to (0, 0), then "rdlu" rounds turn the other three
     * tiles until the block is solved or three rounds have been tried. The
     * source's closing check becomes the result flag: the block cannot
     * always be solved this way, and three rounds bring it back to where
     * they started.
     */
    method Solve2x2() returns (result: string, solved: bool)
      requires Valid() && IsPermutation(grid, height, width)
      requires Row1Invariant(grid, height, width, 1)
      modifies this
      ensures Valid() && IsPermutation(grid, height, width) && 2 <= height && 2 <= width
      ensures var n := (|result| - 2) / 4;
        && 2 <= |result| && n <= 3 && result == TwoByTwoMoves(n)
        && (forall k :: 0 <= k < n ==> !SolvesAfter(old(grid), height, width, k))
        && (!solved ==> n == 3)
      ensures solved == TwoByTwoSolved(grid, height, width)
      ensures Run(old(grid), height, width, Pos(1, 1), result) == Done(grid, Pos(0, 0))
      ensures FixedAfter(old(grid), grid, height, width, Pos(1, 1))
      ensures FixedRightOf(old(grid), grid, height, width, 1)
    {
      hide Run, RunFrom, Find, FindFrom, IsPermutation, SameOutside, FixedAfter, FixedRightOf;
      TwoByTwoStart(grid, height, width);
      var applied := UpdatePuzzle("lu");
      result := "lu";
      var count := 0;
      while !TwoByTwoSolved(grid, height, width)
        invariant Valid() && 0 <= count <= 2 && result == TwoByTwoMoves(count)
        invariant TwoByTwoAt(old(grid), grid, height, width, count)
        invariant forall k :: 0 <= k < count ==> !SolvesAfter(old(grid), height, width, k)
        decreases 3 - count
      {
        TwoByTwoChecked(old(grid), grid, height, width, count);
        TwoByTwoStep(old(grid), grid, height, width, count);
        applied := UpdatePuzzle("rdlu");
        result := result + "rdlu";
        count := count + 1;
        if count == 3 {
          break;
        }
      }
      solved := TwoByTwoSolved(grid, height, width);
    }

    /**
     * One round of ZeroToEnd's loop, from the blank at (zeroRow, zeroCol):
     * "d" unless it is in the last row, then "r" unless it was in the last
     * column.
     */
    method EndRoundStep(zeroRow: int, zeroCol: int, ghost g0: Grid, ghost z0: Pos, ghost s: string)
      returns (moves: string)
      requires Valid() && EndWalk(g0, grid, height, width, z0, s, Pos(zeroRow, zeroCol))
      modifies this
      ensures Valid() && moves == RoundMoves(Pos(zeroRow, zeroCol), height, width)
      ensures EndWalk(g0, grid, height, width, z0, s + moves, RoundEnd(Pos(zeroRow, zeroCol), height, width))
    {
      hide Run, RunFrom, Find, FindFrom, IsPermutation;
      ghost var z := Pos(zeroRow, zeroCol);
      moves := "";
      assert s + moves == s;
      if zeroRow < height - 1 {
        EndStep(g0, grid, height, width, z0, s, z, 'd');
        var applied := UpdatePuzzle("d");
        moves := "d";
        z := Neighbour(z, 'd');
      }
      if zeroCol < width - 1 {
        EndStep(g0, grid, height, width, z0, s + moves, z, 'r');
        var applied := UpdatePuzzle("r");
        assert s + moves + "r" == s + (moves + "r");
        moves := moves + "r";
      }
    }

    /**
     * Takes the blank to the last cell, (height - 1, width - 1): each round
     * moves it down while it is above the last row and right while it is
     * left of the last column.
     */
    method ZeroToEnd() returns (result: string)
      requires Valid() && IsPermutation(grid, height, width) && 0 < height && 0 < width
      modifies this
      ensures Valid() && IsPermutation(grid, height, width)
      ensures Find(old(grid), height, width, 0).Some?
      ensures var z := Find(old(grid), height, width, 0).value;
        && result == EndMoves(height - 1 - z.row, width - 1 - z.col)
        && Run(old(grid), height, width, z, result) == Done(grid, Pos(height - 1, width - 1))
      ensures Find(grid, height, width, 0) == Some(Pos(height - 1, width - 1))
    {
      hide Run, RunFrom, Find, FindFrom, IsPermutation, EndMoves, RoundMoves;
      assert 0 < height * width;
      FindsEveryValue(grid, height, width, 0);
      var zero := CurrentPosition(0, 0);
      ghost var z0 := zero.value;
      ghost var total := EndMoves(height - 1 - z0.row, width - 1 - z0.col);
      EndWalkStart(grid, height, width, z0);
      var zeroRow, zeroCol := zero.value.row, zero.value.col;
      result := "";
      while !(zeroRow == height - 1 && zeroCol == width - 1)
        invariant Valid() && EndWalk(old(grid), grid, height, width, z0, result, Pos(zeroRow, zeroCol))
        invariant result + EndMoves(height - 1 - zeroRow, width - 1 - zeroCol) == total
        decreases (height - 1 - zeroRow) + (width - 1 - zeroCol)
      {
        ghost var z := Pos(zeroRow, zeroCol);
        EndRound(result, total, z, height, width);
        var moves := EndRoundStep(zeroRow, zeroCol, old(grid), z0, result);
        result := result + moves;
        zero := CurrentPosition(0, 0);
        zeroRow, zeroCol := zero.value.row, zero.value.col;
      }
      EndMovesCount(0, 0);
    }

    /**
     * One phase of SolvePuzzle's loop, chosen by the blank's cell as the
     * loop's tests choose it: an interior tile, a column-0 tile, a row-1
     * tile or a row-0 tile. Returns the moves and the blank's new cell, a
     * lower-ranked stage.
     */
    method SolveStage(zeroRow: int, zeroCol: int) returns (s: string, row: int, col: int)
      requires Valid() && IsPermutation(grid, height, width) && Stage(grid, height, width, Pos(zeroRow, zeroCol))
      requires !(zeroRow < 2 && zeroCol < 2)
      modifies this
      ensures Valid() && IsPermutation(grid, height, width) && Stage(grid, height, width, Pos(row, col))
      ensures InGrid(Pos(row, col), height, width)
      ensures Run(old(grid), height, width, Pos(zeroRow, zeroCol), s) == Done(grid, Pos(row, col))
      ensures StageRank(Pos(row, col), width) < StageRank(Pos(zeroRow, zeroCol), width)
    {
      hide Run, RunFrom, Find, FindFrom, IsPermutation, FixedAfter, FixedRightOf,
           LowerRowInvariant, Row1Invariant, Row1Ready, Row0Ready, Stage;
      StageFacts(grid, height, width, Pos(zeroRow, zeroCol));
      StageRankDrops(zeroRow, zeroCol, width);
      if zeroRow > 1 && zeroCol > 0 {
        s := SolveInteriorTile(zeroRow, zeroCol);
        StageLower(grid, height, width, zeroRow, zeroCol - 1);
      } else if zeroRow > 1 {
        s := SolveCol0Tile(zeroRow);
        StageLower(grid, height, width, zeroRow - 1, width - 1);
      } else if zeroRow == 1 {
        s := SolveRow1Tile(zeroCol);
        StageRow0(grid, height, width, zeroCol);
      } else {
        s := SolveRow0Tile(zeroCol);
        StageRow1(grid, height, width, zeroCol - 1);
      }
      ghost var z := if zeroRow > 1 && zeroCol > 0 then Pos(zeroRow, zeroCol - 1)
                     else if zeroRow > 1 then Pos(zeroRow - 1, width - 1)
                     else if zeroRow == 1 then Pos(0, zeroCol)
                     else Pos(1, zeroCol - 1);
      StageFacts(grid, height, width, z);
      var zero := CurrentPosition(0, 0);
      row, col := zero.value.row, zero.value.col;
    }

    /**
     * One pass of SolvePuzzle's loop body: the four tests in turn, each
     * running its phase when the blank's current cell calls for it. Either
     * the blank ends in the top-left 2x2 block or its stage rank drops.
     */
    method PhaseRound(row0: int, col0: int) returns (result: string, row: int, col: int)
      requires Valid() && IsPermutation(grid, height, width) && Stage(grid, height, width, Pos(row0, col0))
      modifies this
      ensures Valid() && IsPermutation(grid, height, width) && Stage(grid, height, width, Pos(row, col))
      ensures Run(old(grid), height, width, Pos(row0, col0), result) == Done(grid, Pos(row, col))
      ensures (row < 2 && col < 2) || StageRank(Pos(row, col), width) < StageRank(Pos(row0, col0), width)
    {
      hide Run, RunFrom, Find, FindFrom, IsPermutation, FixedAfter, FixedRightOf,
           LowerRowInvariant, Row1Invariant, Row1Ready, Row0Ready, Stage;
      row, col := row0, col0;
      result := "";
      StageFacts(grid, height, width, Pos(row, col));
      RunEmpty(grid, height, width, Pos(row, col));
      // each test picks the phase SolveStage picks for that cell
      if row > 1 && col > 0 {
        ghost var g1, z1 := grid, Pos(row, col);
        assert Shape(g1, height, width) && InGrid(z1, height, width);
        var s;
        s, row, col := SolveStage(row, col);
        RunThen(old(grid), height, width, Pos(row0, col0), result, g1, z1, s, grid, Pos(row, col));
        result := result + s;
      }
      if row > 1 && col == 0 {
        ghost var g1, z1 := grid, Pos(row, col);
        assert Shape(g1, height, width) && InGrid(z1, height, width);
        var s;
        s, row, col := SolveStage(row, col);
        RunThen(old(grid), height, width, Pos(row0, col0), result, g1, z1, s, grid, Pos(row, col));
        result := result + s;
      }
      if row == 1 && col > 1 {
        ghost var g1, z1 := grid, Pos(row, col);
        assert Shape(g1, height, width) && InGrid(z1, height, width);
        var s;
        s, row, col := SolveStage(row, col);
        RunThen(old(grid), height, width, Pos(row0, col0), result, g1, z1, s, grid, Pos(row, col));
        result := result + s;
      }
      if row == 0 && col > 1 {
        ghost var g1, z1 := grid, Pos(row, col);
        assert Shape(g1, height, width) && InGrid(z1, height, width);
        var s;
        s, row, col := SolveStage(row, col);
        RunThen(old(grid), height, width, Pos(row0, col0), result, g1, z1, s, grid, Pos(row, col));
        result := result + s;
      }
    }

    /**
     * Solves the puzzle: takes the blank to the last cell, then, unless the
     * puzzle is 2x2, places tiles phase by phase (interior and column-0
     * tiles from the bottom row up to row 2, then row-1 and row-0 tiles from
     * the right) until the blank reaches the top-left 2x2 block, and ends
     * with the 2x2 phase. Every cell outside that block ends solved; the
     * flag reports the 2x2 phase's closing check.
     */
    method SolvePuzzle() returns (result: string, solved: bool)
      requires Valid() && IsPermutation(grid, height, width) && 2 <= height && 2 <= width
      modifies this
      ensures Valid() && IsPermutation(grid, height, width)
      ensures Find(old(grid), height, width, 0).Some?
      ensures Run(old(grid), height, width, Find(old(grid), height, width, 0).value, result) == Done(grid, Pos(0, 0))
      ensures forall r, c :: 0 <= r < height && 0 <= c < width && (1 < r || 1 < c) ==> grid[r][c] == SolvedValue(width, r, c)
      ensures solved <==> grid == SolvedGrid(height, width)
    {
      hide Run, RunFrom, Find, FindFrom, IsPermutation, FixedAfter, FixedRightOf,
           LowerRowInvariant, Row1Invariant, Row1Ready, Row0Ready, Stage;
      result := ZeroToEnd();
      ghost var z0 := Find(old(grid), height, width, 0).value;
      var zero := CurrentPosition(0, 0);
      var zeroRow, zeroCol := zero.value.row, zero.value.col;
      StageStart(grid, height, width);
      // a 2x2 puzzle goes straight to the 2x2 phase; the loop would stop at once
      if !(width == 2 && height == 2) {
        while true
          invariant Valid() && IsPermutation(grid, height, width) && Stage(grid, height, width, Pos(zeroRow, zeroCol))
          invariant Run(old(grid), height, width, z0, result) == Done(grid, Pos(zeroRow, zeroCol))
          decreases StageRank(Pos(zeroRow, zeroCol), width)
        {
          StageFacts(grid, height, width, Pos(zeroRow, zeroCol));
          ghost var g1, z1 := grid, Pos(zeroRow, zeroCol);
          assert Shape(g1, height, width);
          var s;
          s, zeroRow, zeroCol := PhaseRound(zeroRow, zeroCol);
          RunThen(old(grid), height, width, z0, result, g1, z1, s, grid, Pos(zeroRow, zeroCol));
          result := result + s;
          if zeroRow < 2 && zeroCol < 2 {
            break;
          }
        }
      }
      StageFacts(grid, height, width, Pos(zeroRow, zeroCol));
      ghost var g1 := grid;
      var s;
      s, solved := Solve2x2();
      RunThen(old(grid), height, width, z0, result, g1, Pos(1, 1), s, grid, Pos(0, 0));
      result := result + s;
      TwoByTwoFinishes(g1, grid, height, width);
    }
  }
}
