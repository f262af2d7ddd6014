/**
 * The fixed move strings the solver applies, each proved once and for all
 * from the blank's position: where the blank ends, which tiles land where,
 * and the rectangle outside of which nothing changes.
 */
module PuzzleMacros {
  import opened PuzzleGrid
  import opened PuzzleMoves

  /** Where the blank goes and where tiles come from under "druld". */
  lemma CycleDownPath(x: int, y: int)
    ensures TraceWithin(Pos(x, y), "druld", 0, Box(x, x + 1, y, y + 1))
    ensures EndFrom(Pos(x, y), "druld", 0) == Pos(x + 1, y)
    ensures SrcFrom(Pos(x, y), "druld", 0, Pos(x + 1, y + 1)) == Pos(x, y + 1)
  {
  }

  /**
   * With the blank immediately left of a tile, "druld" moves that tile one row
   * down and leaves the blank immediately left of it again.
   */
  lemma CycleDown(g: Grid, h: int, w: int, x: int, y: int)
    requires Shape(g, h, w) && 0 <= x && x + 1 < h && 0 <= y && y + 1 < w
    requires g[x][y] == 0
    ensures var o := Run(g, h, w, Pos(x, y), "druld");
      && o.Done? && o.zero == Pos(x + 1, y)
      && o.grid[x + 1][y + 1] == g[x][y + 1]
      && SameOutside(g, o.grid, h, w, Box(x, x + 1, y, y + 1))
  {
    CycleDownPath(x, y);
    RunWithin(g, h, w, Pos(x, y), "druld", Box(x, x + 1, y, y + 1));
  }

  /** Where the blank goes and where tiles come from under "urrdl". */
  lemma CycleRightOverPath(x: int, y: int)
    ensures TraceWithin(Pos(x, y), "urrdl", 0, Box(x - 1, x, y, y + 2))
    ensures EndFrom(Pos(x, y), "urrdl", 0) == Pos(x, y + 1)
    ensures SrcFrom(Pos(x, y), "urrdl", 0, Pos(x, y + 2)) == Pos(x, y + 1)
  {
  }

  /**
   * With the blank immediately left of a tile, "urrdl" moves that tile one
   * column right, passing through the row above, and leaves the blank
   * immediately left of it again.
   */
  lemma CycleRightOver(g: Grid, h: int, w: int, x: int, y: int)
    requires Shape(g, h, w) && 0 <= x - 1 && x < h && 0 <= y && y + 2 < w
    requires g[x][y] == 0
    ensures var o := Run(g, h, w, Pos(x, y), "urrdl");
      && o.Done? && o.zero == Pos(x, y + 1)
      && o.grid[x][y + 2] == g[x][y + 1]
      && SameOutside(g, o.grid, h, w, Box(x - 1, x, y, y + 2))
  {
    CycleRightOverPath(x, y);
    RunWithin(g, h, w, Pos(x, y), "urrdl", Box(x - 1, x, y, y + 2));
  }

  /** Where the blank goes and where tiles come from under "drrul". */
  lemma CycleRightUnderPath(x: int, y: int)
    ensures TraceWithin(Pos(x, y), "drrul", 0, Box(x, x + 1, y, y + 2))
    ensures EndFrom(Pos(x, y), "drrul", 0) == Pos(x, y + 1)
    ensures SrcFrom(Pos(x, y), "drrul", 0, Pos(x, y + 2)) == Pos(x, y + 1)
  {
  }

  /** Like CycleRightOver, passing through the row below (used in row 0). */
  lemma CycleRightUnder(g: Grid, h: int, w: int, x: int, y: int)
    requires Shape(g, h, w) && 0 <= x && x + 1 < h && 0 <= y && y + 2 < w
    requires g[x][y] == 0
    ensures var o := Run(g, h, w, Pos(x, y), "drrul");
      && o.Done? && o.zero == Pos(x, y + 1)
      && o.grid[x][y + 2] == g[x][y + 1]
      && SameOutside(g, o.grid, h, w, Box(x, x + 1, y, y + 2))
  {
    CycleRightUnderPath(x, y);
    RunWithin(g, h, w, Pos(x, y), "drrul", Box(x, x + 1, y, y + 2));
  }

  /** Where the blank goes and where tiles come from under "rulld". */
  lemma CycleLeftOverPath(x: int, y: int)
    ensures TraceWithin(Pos(x, y), "rulld", 0, Box(x - 1, x, y - 1, y + 1))
    ensures EndFrom(Pos(x, y), "rulld", 0) == Pos(x, y - 1)
    ensures SrcFrom(Pos(x, y), "rulld", 0, Pos(x, y)) == Pos(x, y + 1)
  {
  }

  /**
   * With the blank immediately left of a tile, "rulld" moves that tile one
   * column left, passing through the row above, and leaves the blank
   * immediately left of it again.
   */
  lemma CycleLeftOver(g: Grid, h: int, w: int, x: int, y: int)
    requires Shape(g, h, w) && 0 <= x - 1 && x < h && 0 <= y - 1 && y + 1 < w
    requires g[x][y] == 0
    ensures var o := Run(g, h, w, Pos(x, y), "rulld");
      && o.Done? && o.zero == Pos(x, y - 1)
      && o.grid[x][y] == g[x][y + 1]
      && SameOutside(g, o.grid, h, w, Box(x - 1, x, y - 1, y + 1))
  {
    CycleLeftOverPath(x, y);
    RunWithin(g, h, w, Pos(x, y), "rulld", Box(x - 1, x, y - 1, y + 1));
  }

  /** Where the blank goes and where tiles come from under "rdllu". */
  lemma CycleLeftUnderPath(x: int, y: int)
    ensures TraceWithin(Pos(x, y), "rdllu", 0, Box(x, x + 1, y - 1, y + 1))
    ensures EndFrom(Pos(x, y), "rdllu", 0) == Pos(x, y - 1)
    ensures SrcFrom(Pos(x, y), "rdllu", 0, Pos(x, y)) == Pos(x, y + 1)
  {
  }

  /** Like CycleLeftOver, passing through the row below (used in row 0). */
  lemma CycleLeftUnder(g: Grid, h: int, w: int, x: int, y: int)
    requires Shape(g, h, w) && 0 <= x && x + 1 < h && 0 <= y - 1 && y + 1 < w
    requires g[x][y] == 0
    ensures var o := Run(g, h, w, Pos(x, y), "rdllu");
      && o.Done? && o.zero == Pos(x, y - 1)
      && o.grid[x][y] == g[x][y + 1]
      && SameOutside(g, o.grid, h, w, Box(x, x + 1, y - 1, y + 1))
  {
    CycleLeftUnderPath(x, y);
    RunWithin(g, h, w, Pos(x, y), "rdllu", Box(x, x + 1, y - 1, y + 1));
  }

  /** Where the blank goes and where tiles come from under "ld". */
  lemma LeftDownPath(x: int, y: int)
    ensures TraceWithin(Pos(x, y), "ld", 0, Box(x, x + 1, y - 1, y))
    ensures EndFrom(Pos(x, y), "ld", 0) == Pos(x + 1, y - 1)
    ensures SrcFrom(Pos(x, y), "ld", 0, Pos(x, y)) == Pos(x, y - 1)
    ensures SrcFrom(Pos(x, y), "ld", 0, Pos(x, y - 1)) == Pos(x + 1, y - 1)
    ensures SrcFrom(Pos(x, y), "ld", 0, Pos(x + 1, y)) == Pos(x + 1, y)
  {
  }

  /**
   * "ld": the blank steps left and then down; the cell right of where it lands
   * keeps its tile.
   */
  lemma LeftDown(g: Grid, h: int, w: int, x: int, y: int)
    requires Shape(g, h, w) && 0 <= x && x + 1 < h && 0 <= y - 1 && y < w
    requires g[x][y] == 0
    ensures var o := Run(g, h, w, Pos(x, y), "ld");
      && o.Done? && o.zero == Pos(x + 1, y - 1)
      && o.grid[x][y] == g[x][y - 1]
      && o.grid[x][y - 1] == g[x + 1][y - 1]
      && o.grid[x + 1][y] == g[x + 1][y]
      && SameOutside(g, o.grid, h, w, Box(x, x + 1, y - 1, y))
  {
    LeftDownPath(x, y);
    RunWithin(g, h, w, Pos(x, y), "ld", Box(x, x + 1, y - 1, y));
  }

  /** Where the blank goes and where tiles come from under "rdl". */
  lemma RightDownLeftPath(x: int, y: int)
    ensures TraceWithin(Pos(x, y), "rdl", 0, Box(x, x + 1, y, y + 1))
    ensures EndFrom(Pos(x, y), "rdl", 0) == Pos(x + 1, y)
    ensures SrcFrom(Pos(x, y), "rdl", 0, Pos(x + 1, y + 1)) == Pos(x + 1, y)
  {
  }

  /**
   * With the blank immediately above a tile, "rdl" moves that tile one column
   * right and leaves the blank immediately left of it.
   */
  lemma RightDownLeft(g: Grid, h: int, w: int, x: int, y: int)
    requires Shape(g, h, w) && 0 <= x && x + 1 < h && 0 <= y && y + 1 < w
    requires g[x][y] == 0
    ensures var o := Run(g, h, w, Pos(x, y), "rdl");
      && o.Done? && o.zero == Pos(x + 1, y)
      && o.grid[x + 1][y + 1] == g[x + 1][y]
      && SameOutside(g, o.grid, h, w, Box(x, x + 1, y, y + 1))
  {
    RightDownLeftPath(x, y);
    RunWithin(g, h, w, Pos(x, y), "rdl", Box(x, x + 1, y, y + 1));
  }

  /** Where the blank goes and where tiles come from under "ur". */
  lemma UpRightPath(x: int, y: int)
    ensures TraceWithin(Pos(x, y), "ur", 0, Box(x - 1, x, y, y + 1))
    ensures EndFrom(Pos(x, y), "ur", 0) == Pos(x - 1, y + 1)
    ensures SrcFrom(Pos(x, y), "ur", 0, Pos(x, y + 1)) == Pos(x, y + 1)
  {
  }

  /**
   * "ur": the blank steps up and then right; the cell right of where it
   * started keeps its tile.
   */
  lemma UpRight(g: Grid, h: int, w: int, x: int, y: int)
    requires Shape(g, h, w) && 0 <= x - 1 && x < h && 0 <= y && y + 1 < w
    requires g[x][y] == 0
    ensures var o := Run(g, h, w, Pos(x, y), "ur");
      && o.Done? && o.zero == Pos(x - 1, y + 1)
      && o.grid[x][y + 1] == g[x][y + 1]
      && SameOutside(g, o.grid, h, w, Box(x - 1, x, y, y + 1))
  {
    UpRightPath(x, y);
    RunWithin(g, h, w, Pos(x, y), "ur", Box(x - 1, x, y, y + 1));
  }

  /** Where the blank goes and where tiles come from under "lu". */
  lemma LeftUpPath(x: int, y: int)
    ensures TraceWithin(Pos(x, y), "lu", 0, Box(x - 1, x, y - 1, y))
    ensures EndFrom(Pos(x, y), "lu", 0) == Pos(x - 1, y - 1)
    ensures SrcFrom(Pos(x, y), "lu", 0, Pos(x, y)) == Pos(x, y - 1)
    ensures SrcFrom(Pos(x, y), "lu", 0, Pos(x, y - 1)) == Pos(x - 1, y - 1)
    ensures SrcFrom(Pos(x, y), "lu", 0, Pos(x - 1, y)) == Pos(x - 1, y)
  {
  }

  /** "lu": the blank steps left and then up. */
  lemma LeftUp(g: Grid, h: int, w: int, x: int, y: int)
    requires Shape(g, h, w) && 0 <= x - 1 && x < h && 0 <= y - 1 && y < w
    requires g[x][y] == 0
    ensures var o := Run(g, h, w, Pos(x, y), "lu");
      && o.Done? && o.zero == Pos(x - 1, y - 1)
      && o.grid[x][y] == g[x][y - 1]
      && o.grid[x][y - 1] == g[x - 1][y - 1]
      && o.grid[x - 1][y] == g[x - 1][y]
      && SameOutside(g, o.grid, h, w, Box(x - 1, x, y - 1, y))
  {
    LeftUpPath(x, y);
    RunWithin(g, h, w, Pos(x, y), "lu", Box(x - 1, x, y - 1, y));
  }

  /** Where the blank goes and where tiles come from under "rdlu". */
  lemma RotateSquarePath(x: int, y: int)
    ensures TraceWithin(Pos(x, y), "rdlu", 0, Box(x, x + 1, y, y + 1))
    ensures EndFrom(Pos(x, y), "rdlu", 0) == Pos(x, y)
    ensures SrcFrom(Pos(x, y), "rdlu", 0, Pos(x, y + 1)) == Pos(x + 1, y + 1)
    ensures SrcFrom(Pos(x, y), "rdlu", 0, Pos(x + 1, y)) == Pos(x, y + 1)
    ensures SrcFrom(Pos(x, y), "rdlu", 0, Pos(x + 1, y + 1)) == Pos(x + 1, y)
  {
  }

  /**
   * With the blank at the top-left corner of a 2x2 square, "rdlu" cycles the
   * other three tiles of the square and brings the blank back.
   */
  lemma RotateSquare(g: Grid, h: int, w: int, x: int, y: int)
    requires Shape(g, h, w) && 0 <= x && x + 1 < h && 0 <= y && y + 1 < w
    requires g[x][y] == 0
    ensures var o := Run(g, h, w, Pos(x, y), "rdlu");
      && o.Done? && o.zero == Pos(x, y)
      && o.grid[x][y + 1] == g[x + 1][y + 1]
      && o.grid[x + 1][y] == g[x][y + 1]
      && o.grid[x + 1][y + 1] == g[x + 1][y]
      && SameOutside(g, o.grid, h, w, Box(x, x + 1, y, y + 1))
  {
    RotateSquarePath(x, y);
    RunWithin(g, h, w, Pos(x, y), "rdlu", Box(x, x + 1, y, y + 1));
  }

  /** First half of PlaceColumnZeroPath. */
  lemma PlaceColumnZeroPathHead(x: int, y: int)
    ensures TraceWithin(Pos(x, y), "ruldrdlur", 0, Box(x - 1, x + 1, y, y + 1))
    ensures EndFrom(Pos(x, y), "ruldrdlur", 0) == Pos(x, y + 1)
    ensures SrcFrom(Pos(x, y), "ruldrdlur", 0, Pos(x - 1, y)) == Pos(x, y + 1)
    ensures SrcFrom(Pos(x, y), "ruldrdlur", 0, Pos(x, y)) == Pos(x + 1, y + 1)
  {
    assert TraceWithin(Pos(x + 1, y + 1), "ruldrdlur", 6, Box(x - 1, x + 1, y, y + 1));
    assert EndFrom(Pos(x + 1, y + 1), "ruldrdlur", 6) == Pos(x, y + 1);
    assert SrcFrom(Pos(x + 1, y + 1), "ruldrdlur", 6, Pos(x - 1, y)) == Pos(x - 1, y);
    assert SrcFrom(Pos(x + 1, y + 1), "ruldrdlur", 6, Pos(x, y)) == Pos(x, y + 1);
    assert TraceWithin(Pos(x - 1, y), "ruldrdlur", 3, Box(x - 1, x + 1, y, y + 1));
    assert EndFrom(Pos(x - 1, y), "ruldrdlur", 3) == Pos(x, y + 1);
    assert SrcFrom(Pos(x - 1, y), "ruldrdlur", 3, Pos(x - 1, y)) == Pos(x, y);
    assert SrcFrom(Pos(x - 1, y), "ruldrdlur", 3, Pos(x, y)) == Pos(x + 1, y + 1);
  }

  /** Second half of PlaceColumnZeroPath. */
  lemma PlaceColumnZeroPathTail(x: int, y: int)
    ensures TraceWithin(Pos(x, y + 1), "dluurddlur", 0, Box(x - 1, x + 1, y, y + 1))
    ensures EndFrom(Pos(x, y + 1), "dluurddlur", 0) == Pos(x, y + 1)
    ensures SrcFrom(Pos(x, y + 1), "dluurddlur", 0, Pos(x + 1, y)) == Pos(x - 1, y)
    ensures SrcFrom(Pos(x, y + 1), "dluurddlur", 0, Pos(x + 1, y + 1)) == Pos(x, y)
  {
    assert TraceWithin(Pos(x + 1, y + 1), "dluurddlur", 7, Box(x - 1, x + 1, y, y + 1));
    assert EndFrom(Pos(x + 1, y + 1), "dluurddlur", 7) == Pos(x, y + 1);
    assert SrcFrom(Pos(x + 1, y + 1), "dluurddlur", 7, Pos(x + 1, y)) == Pos(x, y);
    assert SrcFrom(Pos(x + 1, y + 1), "dluurddlur", 7, Pos(x + 1, y + 1)) == Pos(x + 1, y);
    assert TraceWithin(Pos(x - 1, y), "dluurddlur", 4, Box(x - 1, x + 1, y, y + 1));
    assert EndFrom(Pos(x - 1, y), "dluurddlur", 4) == Pos(x, y + 1);
    assert SrcFrom(Pos(x - 1, y), "dluurddlur", 4, Pos(x + 1, y)) == Pos(x, y);
    assert SrcFrom(Pos(x - 1, y), "dluurddlur", 4, Pos(x + 1, y + 1)) == Pos(x + 1, y);
    assert TraceWithin(Pos(x + 1, y + 1), "dluurddlur", 1, Box(x - 1, x + 1, y, y + 1));
    assert EndFrom(Pos(x + 1, y + 1), "dluurddlur", 1) == Pos(x, y + 1);
    assert SrcFrom(Pos(x + 1, y + 1), "dluurddlur", 1, Pos(x + 1, y)) == Pos(x - 1, y);
    assert SrcFrom(Pos(x + 1, y + 1), "dluurddlur", 1, Pos(x + 1, y + 1)) == Pos(x, y);
  }

  /** Where the blank goes and where tiles come from under "ruldrdlurdluurddlur". */
  lemma PlaceColumnZeroPath(x: int, y: int)
    ensures TraceWithin(Pos(x, y), "ruldrdlurdluurddlur", 0, Box(x - 1, x + 1, y, y + 1))
    ensures EndFrom(Pos(x, y), "ruldrdlurdluurddlur", 0) == Pos(x, y + 1)
    ensures SrcFrom(Pos(x, y), "ruldrdlurdluurddlur", 0, Pos(x + 1, y)) == Pos(x, y + 1)
    ensures SrcFrom(Pos(x, y), "ruldrdlurdluurddlur", 0, Pos(x + 1, y + 1)) == Pos(x + 1, y + 1)
  {
    assert "ruldrdlur" + "dluurddlur" == "ruldrdlurdluurddlur";
    PathAppend(Pos(x, y), "ruldrdlur", "dluurddlur", 0, Pos(x + 1, y), Box(x - 1, x + 1, y, y + 1));
    PathAppend(Pos(x, y), "ruldrdlur", "dluurddlur", 0, Pos(x + 1, y + 1), Box(x - 1, x + 1, y, y + 1));
    PlaceColumnZeroPathHead(x, y);
    PlaceColumnZeroPathTail(x, y);
  }

  /**
   * The 3x2 move string of the column-0 phase: with the blank at (x, y), the
   * tile T at (x, y + 1) and a tile S at (x + 1, y + 1), it brings T down to
   * (x + 1, y), puts S back where it was and leaves the blank at (x, y + 1).
   */
  lemma PlaceColumnZero(g: Grid, h: int, w: int, x: int, y: int)
    requires Shape(g, h, w) && 0 <= x - 1 && x + 1 < h && 0 <= y && y + 1 < w
    requires g[x][y] == 0
    ensures var o := Run(g, h, w, Pos(x, y), "ruldrdlurdluurddlur");
      && o.Done? && o.zero == Pos(x, y + 1)
      && o.grid[x + 1][y] == g[x][y + 1]
      && o.grid[x + 1][y + 1] == g[x + 1][y + 1]
      && SameOutside(g, o.grid, h, w, Box(x - 1, x + 1, y, y + 1))
  {
    PlaceColumnZeroPath(x, y);
    RunWithin(g, h, w, Pos(x, y), "ruldrdlurdluurddlur", Box(x - 1, x + 1, y, y + 1));
  }

  /** First half of PlaceRowZeroPath. */
  lemma PlaceRowZeroPathHead(x: int, y: int)
    ensures TraceWithin(Pos(x, y), "urdlurrd", 0, Box(x - 1, x, y, y + 2))
    ensures EndFrom(Pos(x, y), "urdlurrd", 0) == Pos(x, y + 2)
    ensures SrcFrom(Pos(x, y), "urdlurrd", 0, Pos(x - 1, y)) == Pos(x, y + 1)
    ensures SrcFrom(Pos(x, y), "urdlurrd", 0, Pos(x - 1, y + 2)) == Pos(x, y + 2)
  {
    assert TraceWithin(Pos(x - 1, y), "urdlurrd", 5, Box(x - 1, x, y, y + 2));
    assert EndFrom(Pos(x - 1, y), "urdlurrd", 5) == Pos(x, y + 2);
    assert SrcFrom(Pos(x - 1, y), "urdlurrd", 5, Pos(x - 1, y)) == Pos(x - 1, y + 1);
    assert SrcFrom(Pos(x - 1, y), "urdlurrd", 5, Pos(x - 1, y + 2)) == Pos(x, y + 2);
    assert TraceWithin(Pos(x - 1, y + 1), "urdlurrd", 2, Box(x - 1, x, y, y + 2));
    assert EndFrom(Pos(x - 1, y + 1), "urdlurrd", 2) == Pos(x, y + 2);
    assert SrcFrom(Pos(x - 1, y + 1), "urdlurrd", 2, Pos(x - 1, y)) == Pos(x, y + 1);
    assert SrcFrom(Pos(x - 1, y + 1), "urdlurrd", 2, Pos(x - 1, y + 2)) == Pos(x, y + 2);
  }

  /** Second half of PlaceRowZeroPath. */
  lemma PlaceRowZeroPathTail(x: int, y: int)
    ensures TraceWithin(Pos(x, y + 2), "luldrruld", 0, Box(x - 1, x, y, y + 2))
    ensures EndFrom(Pos(x, y + 2), "luldrruld", 0) == Pos(x, y + 1)
    ensures SrcFrom(Pos(x, y + 2), "luldrruld", 0, Pos(x - 1, y + 2)) == Pos(x - 1, y)
    ensures SrcFrom(Pos(x, y + 2), "luldrruld", 0, Pos(x, y + 2)) == Pos(x - 1, y + 2)
  {
    assert TraceWithin(Pos(x, y + 2), "luldrruld", 6, Box(x - 1, x, y, y + 2));
    assert EndFrom(Pos(x, y + 2), "luldrruld", 6) == Pos(x, y + 1);
    assert SrcFrom(Pos(x, y + 2), "luldrruld", 6, Pos(x - 1, y + 2)) == Pos(x - 1, y + 1);
    assert SrcFrom(Pos(x, y + 2), "luldrruld", 6, Pos(x, y + 2)) == Pos(x - 1, y + 2);
    assert TraceWithin(Pos(x - 1, y), "luldrruld", 3, Box(x - 1, x, y, y + 2));
    assert EndFrom(Pos(x - 1, y), "luldrruld", 3) == Pos(x, y + 1);
    assert SrcFrom(Pos(x - 1, y), "luldrruld", 3, Pos(x - 1, y + 2)) == Pos(x - 1, y + 1);
    assert SrcFrom(Pos(x - 1, y), "luldrruld", 3, Pos(x, y + 2)) == Pos(x - 1, y + 2);
  }

  /** Where the blank goes and where tiles come from under "urdlurrdluldrruld". */
  lemma PlaceRowZeroPath(x: int, y: int)
    ensures TraceWithin(Pos(x, y), "urdlurrdluldrruld", 0, Box(x - 1, x, y, y + 2))
    ensures EndFrom(Pos(x, y), "urdlurrdluldrruld", 0) == Pos(x, y + 1)
    ensures SrcFrom(Pos(x, y), "urdlurrdluldrruld", 0, Pos(x - 1, y + 2)) == Pos(x, y + 1)
    ensures SrcFrom(Pos(x, y), "urdlurrdluldrruld", 0, Pos(x, y + 2)) == Pos(x, y + 2)
  {
    assert "urdlurrd" + "luldrruld" == "urdlurrdluldrruld";
    PathAppend(Pos(x, y), "urdlurrd", "luldrruld", 0, Pos(x - 1, y + 2), Box(x - 1, x, y, y + 2));
    PathAppend(Pos(x, y), "urdlurrd", "luldrruld", 0, Pos(x, y + 2), Box(x - 1, x, y, y + 2));
    PlaceRowZeroPathHead(x, y);
    PlaceRowZeroPathTail(x, y);
  }

  /**
   * The 2x3 move string of the row-0 phase: with the blank at (x, y), the tile
   * T at (x, y + 1) and a tile S at (x, y + 2), it brings T up to (x - 1, y +
   * 2), puts S back where it was and leaves the blank at (x, y + 1).
   */
  lemma PlaceRowZero(g: Grid, h: int, w: int, x: int, y: int)
    requires Shape(g, h, w) && 0 <= x - 1 && x < h && 0 <= y && y + 2 < w
    requires g[x][y] == 0
    ensures var o := Run(g, h, w, Pos(x, y), "urdlurrdluldrruld");
      && o.Done? && o.zero == Pos(x, y + 1)
      && o.grid[x - 1][y + 2] == g[x][y + 1]
      && o.grid[x][y + 2] == g[x][y + 2]
      && SameOutside(g, o.grid, h, w, Box(x - 1, x, y, y + 2))
  {
    PlaceRowZeroPath(x, y);
    RunWithin(g, h, w, Pos(x, y), "urdlurrdluldrruld", Box(x - 1, x, y, y + 2));
  }
}
