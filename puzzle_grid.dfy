/**
 * The grid of a sliding-tile ("fifteen") puzzle and the read-only questions
 * the solver asks about it: where a tile is, whether the grid is a
 * permutation, and the phase invariants built from "solved below",
 * "solved right" and "solved at".
 */
module PuzzleGrid {

  datatype Option<T> = None | Some(value: T)

  /** A cell coordinate: row counted from the top, column from the left. */
  datatype Pos = Pos(row: int, col: int)

  /** Row-major list of rows; 0 is the blank. */
  type Grid = seq<seq<int>>

  /** A height-by-width rectangle of cells. */
  predicate Shape(g: Grid, h: int, w: int) {
    0 <= w && |g| == h && forall r :: 0 <= r < h ==> |g[r]| == w
  }

  predicate InGrid(p: Pos, h: int, w: int) {
    0 <= p.row < h && 0 <= p.col < w
  }

  /** The value that belongs at (r, c) in the solved puzzle. */
  function SolvedValue(w: int, r: int, c: int): int {
    c + w * r
  }

  /** p comes strictly before q in row-major order. */
  predicate Before(p: Pos, q: Pos) {
    p.row < q.row || (p.row == q.row && p.col < q.col)
  }

  function LeftOf(p: Pos): Pos { Pos(p.row, p.col - 1) }
  function Above(p: Pos): Pos { Pos(p.row - 1, p.col) }

  /** The grid a new puzzle starts from when no initial grid is supplied. */
  function SolvedGrid(h: int, w: int): (g: Grid)
    requires 0 <= h && 0 <= w
    ensures Shape(g, h, w)
    ensures forall r, c :: 0 <= r < h && 0 <= c < w ==> g[r][c] == SolvedValue(w, r, c)
  {
    seq(h, r requires 0 <= r < h => seq(w, c requires 0 <= c < w => c + w * r))
  }

  /**
   * Row-major scan from (r, c) for the first cell holding v; a column index
   * equal to w stands for "start of the next row".
   */
  function FindFrom(g: Grid, h: int, w: int, v: int, r: int, c: int): (res: Option<Pos>)
    requires Shape(g, h, w) && 0 <= r && 0 <= c <= w
    decreases h - r, w - c
    ensures res.Some? ==>
      InGrid(res.value, h, w) && g[res.value.row][res.value.col] == v && !Before(res.value, Pos(r, c))
    ensures res.Some? ==> forall i, j ::
      (0 <= i < h && 0 <= j < w && !Before(Pos(i, j), Pos(r, c)) && Before(Pos(i, j), res.value))
      ==> g[i][j] != v
    ensures res.None? ==> forall i, j ::
      (0 <= i < h && 0 <= j < w && !Before(Pos(i, j), Pos(r, c))) ==> g[i][j] != v
  {
    if r >= h then None
    else if c == w then FindFrom(g, h, w, v, r + 1, 0)
    else if g[r][c] == v then Some(Pos(r, c))
    else FindFrom(g, h, w, v, r, c + 1)
  }

  /** The first cell, in row-major order, that holds v (None if no cell does). */
  function Find(g: Grid, h: int, w: int, v: int): (res: Option<Pos>)
    requires Shape(g, h, w)
    ensures res.Some? ==> InGrid(res.value, h, w) && g[res.value.row][res.value.col] == v
    ensures res.Some? ==> forall i, j ::
      (0 <= i < h && 0 <= j < w && Before(Pos(i, j), res.value)) ==> g[i][j] != v
    ensures res.None? ==> forall i, j :: 0 <= i < h && 0 <= j < w ==> g[i][j] != v
  {
    FindFrom(g, h, w, v, 0, 0)
  }

  /** Some cell holds v. */
  ghost predicate Holds(g: Grid, h: int, w: int, v: int)
    requires Shape(g, h, w)
  {
    exists r, c :: 0 <= r < h && 0 <= c < w && g[r][c] == v
  }

  /** Every value 0 .. h*w-1 sits in exactly one cell. */
  ghost predicate IsPermutation(g: Grid, h: int, w: int) {
    && Shape(g, h, w)
    && (forall r, c :: 0 <= r < h && 0 <= c < w ==> 0 <= g[r][c] < h * w)
    && (forall r1, c1, r2, c2 ::
          (0 <= r1 < h && 0 <= c1 < w && 0 <= r2 < h && 0 <= c2 < w && g[r1][c1] == g[r2][c2])
          ==> r1 == r2 && c1 == c2)
    && (forall v :: 0 <= v < h * w ==> Holds(g, h, w, v))
  }

  /** A permutation grid has the puzzle's shape. */
  lemma PermutationShape(g: Grid, h: int, w: int)
    requires IsPermutation(g, h, w)
    ensures Shape(g, h, w)
  {
  }

  /** In a permutation the scan finds exactly the cell that holds the value. */
  lemma FindInPermutation(g: Grid, h: int, w: int, p: Pos)
    requires IsPermutation(g, h, w) && InGrid(p, h, w)
    ensures Find(g, h, w, g[p.row][p.col]) == Some(p)
  {
  }

  /** In a permutation every value of the range is found. */
  lemma FindsEveryValue(g: Grid, h: int, w: int, v: int)
    requires IsPermutation(g, h, w) && 0 <= v < h * w
    ensures Find(g, h, w, v).Some?
  {
    assert Holds(g, h, w, v);
    var r, c :| 0 <= r < h && 0 <= c < w && g[r][c] == v;
    FindInPermutation(g, h, w, Pos(r, c));
  }

  /**
   * A grid is a permutation when a table of positions, one per value of the
   * range, inverts it: each value's entry holds that value, and each cell
   * holds a value of the range whose entry is that cell.
   */
  lemma PermutationByTable(g: Grid, h: int, w: int, at: seq<Pos>)
    requires Shape(g, h, w) && |at| == h * w
    requires forall v :: 0 <= v < h * w ==> InGrid(at[v], h, w) && g[at[v].row][at[v].col] == v
    requires forall r, c :: 0 <= r < h && 0 <= c < w ==> 0 <= g[r][c] < h * w && at[g[r][c]] == Pos(r, c)
    ensures IsPermutation(g, h, w)
  {
    forall v | 0 <= v < h * w
      ensures Holds(g, h, w, v)
    {
      assert g[at[v].row][at[v].col] == v;
    }
  }

  // ---------------------------------------------------------------------
  // Solved regions

  /** Every row strictly below row r holds its solved values. */
  predicate SolvedBelow(g: Grid, h: int, w: int, r: int)
    requires Shape(g, h, w)
  {
    forall i, j :: 0 <= i < h && r < i && 0 <= j < w ==> g[i][j] == SolvedValue(w, i, j)
  }

  /** Row r strictly to the right of column c holds its solved values. */
  predicate SolvedRight(g: Grid, h: int, w: int, r: int, c: int)
    requires Shape(g, h, w) && 0 <= r < h
  {
    forall j :: 0 <= j < w && c < j ==> g[r][j] == SolvedValue(w, r, j)
  }

  predicate SolvedAt(g: Grid, h: int, w: int, r: int, c: int)
    requires Shape(g, h, w) && 0 <= r < h && 0 <= c < w
  {
    g[r][c] == SolvedValue(w, r, c)
  }

  // ---------------------------------------------------------------------
  // Phase invariants, as the source checks them

  /**
   * The blank is at (r, c), every row below r is solved and row r is solved
   * to the right of c.
   */
  predicate LowerRowInvariant(g: Grid, h: int, w: int, r: int, c: int)
    requires Shape(g, h, w)
  {
    Find(g, h, w, 0) == Some(Pos(r, c)) && SolvedBelow(g, h, w, r) && SolvedRight(g, h, w, r, c)
  }

  /** The blank is at (1, c) and the lower-row invariant holds there. */
  predicate Row1Invariant(g: Grid, h: int, w: int, c: int)
    requires Shape(g, h, w)
  {
    Find(g, h, w, 0) == Some(Pos(1, c)) && LowerRowInvariant(g, h, w, 1, c)
  }

  /**
   * The blank is at (0, c), rows below row 1 are solved, and row 1 is solved
   * from column c onwards.
   */
  predicate Row0Invariant(g: Grid, h: int, w: int, c: int)
    requires Shape(g, h, w)
  {
    Find(g, h, w, 0) == Some(Pos(0, c)) && 2 <= h
    && SolvedBelow(g, h, w, 1) && SolvedRight(g, h, w, 1, c)
    && SolvedAt(g, h, w, 1, c)
  }

  /** The top-left 2x2 block holds 0, 1, w, w + 1. */
  predicate TwoByTwoSolved(g: Grid, h: int, w: int)
    requires Shape(g, h, w) && 2 <= h && 2 <= w
  {
    g[0][0] == 0 && g[0][1] == 1 && g[1][0] == w && g[1][1] == w + 1
  }

  // ---------------------------------------------------------------------
  // Phase invariants the solvers need: the checks above, plus row 0 solved
  // to the right of column c

  predicate Row1Ready(g: Grid, h: int, w: int, c: int)
    requires Shape(g, h, w)
  {
    Row1Invariant(g, h, w, c) && SolvedRight(g, h, w, 0, c)
  }

  predicate Row0Ready(g: Grid, h: int, w: int, c: int)
    requires Shape(g, h, w)
  {
    Row0Invariant(g, h, w, c) && SolvedRight(g, h, w, 0, c)
  }
}
