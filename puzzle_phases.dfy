/**
 * What each solver phase needs beyond the helpers it calls: where the tile
 * to be placed can be when the phase starts, which cells the phase's moves
 * leave alone, and how the last few moves restore the next phase's
 * invariant.
 */
module PuzzlePhases {
  import opened PuzzleGrid
  import opened PuzzleMoves
  import opened PuzzleFrames
  import opened PuzzleMacros
  import opened PuzzleWalks

  /** A larger row factor adds at least one whole row. */
  lemma {:induction false} MulGrows(w: int, a: int, b: int)
    requires 0 <= w && a < b
    ensures w * a + w <= w * b
    decreases b - a
  {
    assert w * (a + 1) == w * a + w;
    if a + 1 < b {
      MulGrows(w, a + 1, b);
    }
  }

  /** Distinct cells hold distinct values in the solved puzzle. */
  lemma SolvedValueInjective(w: int, r1: int, c1: int, r2: int, c2: int)
    requires 0 <= c1 < w && 0 <= c2 < w && SolvedValue(w, r1, c1) == SolvedValue(w, r2, c2)
    ensures r1 == r2 && c1 == c2
  {
    if r1 < r2 {
      MulGrows(w, r1, r2);
    } else if r2 < r1 {
      MulGrows(w, r2, r1);
    }
  }

  /** The value for an in-grid cell other than (0, 0) is a tile, not the blank. */
  lemma SolvedValueRange(h: int, w: int, r: int, c: int)
    requires InGrid(Pos(r, c), h, w) && Pos(r, c) != Pos(0, 0)
    ensures 0 < SolvedValue(w, r, c) < h * w
  {
    assert w * r <= w * (h - 1);
    assert w * h == w * (h - 1) + w;
    if r > 0 {
      assert w * r >= w * 1;
    }
  }

  /**
   * Under the lower-row invariant at (r, c), r > 0, the blank is at (r, c)
   * and the tile that belongs there lies strictly before it: every cell
   * after it already holds its own value.
   */
  lemma TileBefore(g: Grid, h: int, w: int, r: int, c: int) returns (t: Pos)
    requires IsPermutation(g, h, w) && LowerRowInvariant(g, h, w, r, c) && 0 < r
    ensures InGrid(Pos(r, c), h, w) && g[r][c] == 0
    ensures InGrid(t, h, w) && g[t.row][t.col] == SolvedValue(w, r, c) && Before(t, Pos(r, c))
  {
    var v := SolvedValue(w, r, c);
    SolvedValueRange(h, w, r, c);
    FindsEveryValue(g, h, w, v);
    t := Find(g, h, w, v).value;
    if !Before(t, Pos(r, c)) && t != Pos(r, c) {
      assert g[t.row][t.col] == SolvedValue(w, t.row, t.col);
      SolvedValueInjective(w, r, c, t.row, t.col);
    }
  }

  /**
   * Walking the tile home leaves every cell after (r, c) alone: the walk
   * left stays in the tile's row and the one above it, the walk right
   * stops at column c, and the walk down stays in columns c - 1 and c.
   */
  lemma HomeFrames(g1: Grid, g2: Grid, g3: Grid, g4: Grid, h: int, w: int, r: int, c: int, p1: Pos, p2: Pos)
    requires Shape(g1, h, w) && Shape(g2, h, w) && Shape(g3, h, w) && Shape(g4, h, w)
    requires 2 <= r && p1.row <= r && (p1.row == r ==> p1.col <= c) && p2.row == p1.row
    requires SameOutside(g1, g2, h, w, Box(Max(p1.row - 1, 0), Max(p1.row, 1), c - 1, p1.col))
    requires SameOutside(g2, g3, h, w, Box(Max(p2.row - 1, 0), Max(p2.row, 1), p2.col - 1, c))
    requires SameOutside(g3, g4, h, w, Box(p2.row, r, c - 1, c))
    ensures FixedAfter(g1, g4, h, w, Pos(r, c))
  {
    var b1 := Box(Max(p1.row - 1, 0), Max(p1.row, 1), c - 1, p1.col);
    var b2 := Box(Max(p2.row - 1, 0), Max(p2.row, 1), p2.col - 1, c);
    var b3 := Box(p2.row, r, c - 1, c);
    BoxFixes(g1, g2, h, w, b1);
    BoxFixes(g2, g3, h, w, b2);
    BoxFixes(g3, g4, h, w, b3);
    FixedAfterChain(g1, g2, g3, h, w, Pos(b1.bottom, b1.right), Pos(b2.bottom, b2.right), Pos(r, c));
    FixedAfterChain(g1, g3, g4, h, w, Pos(r, c), Pos(b3.bottom, b3.right), Pos(r, c));
  }

  /**
   * The end of the interior phase: with the tile home at (r, c), nothing
   * after it changed, and the blank left of it or above it, "ld" from above
   * brings the blank to (r, c - 1), where the lower-row invariant holds.
   */
  lemma InteriorFinish(g0: Grid, g: Grid, h: int, w: int, r: int, c: int, s: string, e: Pos)
    requires IsPermutation(g0, h, w) && LowerRowInvariant(g0, h, w, r, c) && 0 < r && 0 < c
    requires InGrid(Pos(r, c), h, w) && InGrid(e, h, w) && Run(g0, h, w, Pos(r, c), s) == Done(g, e)
    requires IsPermutation(g, h, w) && g[e.row][e.col] == 0 && g[r][c] == SolvedValue(w, r, c)
    requires FixedAfter(g0, g, h, w, Pos(r, c))
    requires e == LeftOf(Pos(r, c)) || e == Above(Pos(r, c))
    ensures Find(g, h, w, 0) == Some(e) && Find(g, h, w, SolvedValue(w, r, c)) == Some(Pos(r, c))
    ensures var m := if e == Above(Pos(r, c)) then "ld" else ""; var o := Run(g, h, w, e, m);
      && o.Done? && o.zero == Pos(r, c - 1) && (m == "" ==> o.grid == g)
      && Run(g0, h, w, Pos(r, c), s + m) == o
      && IsPermutation(o.grid, h, w) && LowerRowInvariant(o.grid, h, w, r, c - 1)
  {
    hide Run, RunFrom, Find, FindFrom, IsPermutation, SameOutside;
    PermutationShape(g0, h, w);
    PermutationShape(g, h, w);
    var m := if e == Above(Pos(r, c)) then "ld" else "";
    Located(g, h, w, e, 0);
    Located(g, h, w, Pos(r, c), SolvedValue(w, r, c));
    if m == "ld" {
      LeftDown(g, h, w, r - 1, c);
    } else {
      RunEmpty(g, h, w, e);
    }
    var o := Run(g, h, w, e, m);
    Replayed(g, h, w, e, m);
    RunThen(g0, h, w, Pos(r, c), s, g, e, m, o.grid, o.zero);
    Located(o.grid, h, w, o.zero, 0);
    assert SolvedBelow(o.grid, h, w, r) && SolvedRight(o.grid, h, w, r, c - 1) by {
      PermutationShape(o.grid, h, w);
      if m == "ld" {
        BoxFixes(g, o.grid, h, w, Box(r - 1, r, c - 1, c));
      }
    }
  }

  /**
   * Under the row-1 invariant at column c the blank is at (1, c) and the
   * tile that belongs there lies before it and no further right than c,
   * since row 0 is solved to the right of c.
   */
  lemma Row1Tile(g: Grid, h: int, w: int, c: int) returns (t: Pos)
    requires IsPermutation(g, h, w) && Row1Ready(g, h, w, c)
    ensures InGrid(Pos(1, c), h, w) && g[1][c] == 0
    ensures InGrid(t, h, w) && g[t.row][t.col] == SolvedValue(w, 1, c)
    ensures Before(t, Pos(1, c)) && t.col <= c
  {
    t := TileBefore(g, h, w, 1, c);
  }

  /**
   * The two walks of the row-1 phase stay in rows 0 and 1 and in columns up
   * to c: everything after (1, c) and everything right of column c stays.
   */
  lemma Row1Frames(g1: Grid, g2: Grid, g3: Grid, h: int, w: int, c: int, p1: Pos, p2: Pos)
    requires Shape(g1, h, w) && Shape(g2, h, w) && Shape(g3, h, w)
    requires 0 <= p1.row <= 1 && p1.col <= c && p2 == Pos(1, p1.col)
    requires SameOutside(g1, g2, h, w, Box(p1.row, 1, p1.col - 1, p1.col))
    requires SameOutside(g2, g3, h, w, Box(Max(p2.row - 1, 0), Max(p2.row, 1), p2.col - 1, c))
    ensures FixedAfter(g1, g3, h, w, Pos(1, c)) && FixedRightOf(g1, g3, h, w, c)
  {
    var b1 := Box(p1.row, 1, p1.col - 1, p1.col);
    var b2 := Box(Max(p2.row - 1, 0), Max(p2.row, 1), p2.col - 1, c);
    BoxFixes(g1, g2, h, w, b1);
    BoxFixes(g2, g3, h, w, b2);
    FixedAfterChain(g1, g2, g3, h, w, Pos(b1.bottom, b1.right), Pos(b2.bottom, b2.right), Pos(1, c));
    FixedRightOfChain(g1, g2, g3, h, w, b1.right, b2.right, c);
  }

  /**
   * The end of the row-1 phase: with the tile home at (1, c), nothing after
   * it or right of column c changed, and the blank left of it or above it,
   * "ur" from the left brings the blank to (0, c), where the row-0 phase
   * can start.
   */
  lemma Row1Finish(g0: Grid, g: Grid, h: int, w: int, c: int, s: string, e: Pos)
    requires IsPermutation(g0, h, w) && Row1Ready(g0, h, w, c) && 0 < c
    requires InGrid(Pos(1, c), h, w) && InGrid(e, h, w) && Run(g0, h, w, Pos(1, c), s) == Done(g, e)
    requires IsPermutation(g, h, w) && g[e.row][e.col] == 0 && g[1][c] == SolvedValue(w, 1, c)
    requires FixedAfter(g0, g, h, w, Pos(1, c)) && FixedRightOf(g0, g, h, w, c)
    requires e == LeftOf(Pos(1, c)) || e == Above(Pos(1, c))
    ensures Find(g, h, w, 0) == Some(e) && Find(g, h, w, SolvedValue(w, 1, c)) == Some(Pos(1, c))
    ensures var m := if e == Above(Pos(1, c)) then "" else "ur"; var o := Run(g, h, w, e, m);
      && o.Done? && o.zero == Pos(0, c) && (m == "" ==> o.grid == g)
      && Run(g0, h, w, Pos(1, c), s + m) == o
      && IsPermutation(o.grid, h, w) && Row0Ready(o.grid, h, w, c)
  {
    hide Run, RunFrom, Find, FindFrom, IsPermutation, SameOutside;
    PermutationShape(g0, h, w);
    PermutationShape(g, h, w);
    var m := if e == Above(Pos(1, c)) then "" else "ur";
    Located(g, h, w, e, 0);
    Located(g, h, w, Pos(1, c), SolvedValue(w, 1, c));
    if m == "ur" {
      UpRight(g, h, w, 1, c - 1);
    } else {
      RunEmpty(g, h, w, e);
    }
    var o := Run(g, h, w, e, m);
    Replayed(g, h, w, e, m);
    RunThen(g0, h, w, Pos(1, c), s, g, e, m, o.grid, o.zero);
    Located(o.grid, h, w, o.zero, 0);
    assert SolvedBelow(o.grid, h, w, 1) && SolvedRight(o.grid, h, w, 1, c)
        && SolvedAt(o.grid, h, w, 1, c) && SolvedRight(o.grid, h, w, 0, c) by {
      PermutationShape(o.grid, h, w);
      if m == "ur" {
        BoxFixes(g, o.grid, h, w, Box(0, 1, c - 1, c));
      }
    }
  }

  /**
   * What the row-0 phase at column c keeps from start to end, whatever
   * happens at (0, c) and left of (1, c): the rows below row 1, row 1 from
   * column c on, and row 0 right of column c are solved.
   */
  predicate Row0Kept(g: Grid, h: int, w: int, c: int)
    requires Shape(g, h, w)
  {
    2 <= h && SolvedBelow(g, h, w, 1) && SolvedRight(g, h, w, 1, c - 1) && SolvedRight(g, h, w, 0, c)
  }

  /**
   * The opening "ld" of the row-0 phase takes the blank from (0, c) to
   * (1, c - 1) and keeps what the phase keeps.
   */
  lemma Row0Start(g0: Grid, h: int, w: int, c: int)
    requires IsPermutation(g0, h, w) && Row0Ready(g0, h, w, c) && 0 < c
    ensures InGrid(Pos(0, c), h, w) && Find(g0, h, w, 0) == Some(Pos(0, c))
    ensures var o := Run(g0, h, w, Pos(0, c), "ld");
      && o.Done? && o.zero == Pos(1, c - 1) && InGrid(o.zero, h, w)
      && IsPermutation(o.grid, h, w) && o.grid[1][c - 1] == 0 && Row0Kept(o.grid, h, w, c)
  {
    hide Run, RunFrom, Find, FindFrom, IsPermutation, SameOutside;
    PermutationShape(g0, h, w);
    LeftDown(g0, h, w, 0, c);
    Replayed(g0, h, w, Pos(0, c), "ld");
    var o := Run(g0, h, w, Pos(0, c), "ld");
    PermutationShape(o.grid, h, w);
    BoxFixes(g0, o.grid, h, w, Box(0, 1, c - 1, c));
  }

  /**
   * After the opening "ld", a tile for (0, c) that is not at (0, c) lies
   * before the blank at (1, c - 1) and left of column c: everything else
   * is solved or is the blank. (0, c) is then outside the approach.
   */
  lemma Row0Tile(g: Grid, h: int, w: int, c: int) returns (t: Pos)
    requires IsPermutation(g, h, w) && Row0Kept(g, h, w, c) && 0 < c
    requires InGrid(Pos(0, c), h, w) && g[1][c - 1] == 0 && g[0][c] != SolvedValue(w, 0, c)
    ensures InGrid(t, h, w) && g[t.row][t.col] == SolvedValue(w, 0, c)
    ensures Before(t, Pos(1, c - 1)) && t.col < c
  {
    SolvedValueRange(h, w, 0, c);
    FindsEveryValue(g, h, w, SolvedValue(w, 0, c));
    t := Find(g, h, w, SolvedValue(w, 0, c)).value;
    if 2 <= t.row {
      assert g[t.row][t.col] == SolvedValue(w, t.row, t.col);
      SolvedValueInjective(w, 0, c, t.row, t.col);
    }
  }

  /** A phase step that keeps the cells the row-0 phase keeps. */
  lemma Row0KeptFrames(g1: Grid, g2: Grid, h: int, w: int, c: int, k: int)
    requires Shape(g1, h, w) && Shape(g2, h, w) && Row0Kept(g1, h, w, c) && InGrid(Pos(1, c), h, w)
    requires FixedAfter(g1, g2, h, w, Pos(1, c - 1)) || (FixedAfter(g1, g2, h, w, Pos(1, c)) && g2[1][c] == g1[1][c])
    requires FixedRightOf(g1, g2, h, w, k) && k <= c
    ensures Row0Kept(g2, h, w, c)
  {
  }

  /**
   * The row-0 walks and the 2x3 move string stay in rows 0 and 1 and in
   * columns up to c, and give (1, c) back its tile.
   */
  lemma Row0Frames(g1: Grid, g2: Grid, g3: Grid, g4: Grid, h: int, w: int, c: int, p1: Pos, p2: Pos)
    requires Shape(g1, h, w) && Shape(g2, h, w) && Shape(g3, h, w) && Shape(g4, h, w)
    requires 0 <= p1.row <= 1 && p1.col < c && p2 == Pos(1, p1.col) && InGrid(Pos(1, c), h, w)
    requires SameOutside(g1, g2, h, w, Box(p1.row, 1, p1.col - 1, p1.col))
    requires SameOutside(g2, g3, h, w, Box(p2.row - 1, p2.row, p2.col - 1, c - 1))
    requires SameOutside(g3, g4, h, w, Box(0, 1, c - 2, c)) && g4[1][c] == g3[1][c]
    ensures FixedAfter(g1, g4, h, w, Pos(1, c)) && FixedRightOf(g1, g4, h, w, c) && g4[1][c] == g1[1][c]
  {
    var b1 := Box(p1.row, 1, p1.col - 1, p1.col);
    var b2 := Box(p2.row - 1, p2.row, p2.col - 1, c - 1);
    var b3 := Box(0, 1, c - 2, c);
    BoxFixes(g1, g2, h, w, b1);
    BoxFixes(g2, g3, h, w, b2);
    BoxFixes(g3, g4, h, w, b3);
    FixedAfterChain(g1, g2, g3, h, w, Pos(b1.bottom, b1.right), Pos(b2.bottom, b2.right), Pos(1, c - 1));
    FixedAfterChain(g1, g3, g4, h, w, Pos(1, c - 1), Pos(b3.bottom, b3.right), Pos(1, c));
    FixedRightOfChain(g1, g2, g3, h, w, b1.right, b2.right, c - 1);
    FixedRightOfChain(g1, g3, g4, h, w, c - 1, b3.right, c);
  }

  /**
   * The end of the row-0 phase: with the tile home at (0, c), the blank at
   * (1, c - 1) and the kept cells solved, the row-1 phase can start at
   * column c - 1.
   */
  lemma Row0Done(g: Grid, h: int, w: int, c: int)
    requires IsPermutation(g, h, w) && Row0Kept(g, h, w, c) && 0 < c
    requires InGrid(Pos(0, c), h, w) && g[1][c - 1] == 0 && g[0][c] == SolvedValue(w, 0, c)
    ensures Row1Ready(g, h, w, c - 1)
  {
    Located(g, h, w, Pos(1, c - 1), 0);
  }

  /**
   * The column-0 walk at row r: the tile for (r, 0) at p, right of column
   * 0 and above row r, with the blank immediately left of it, reached from
   * g0 by s, and nothing from row r on changed.
   */
  ghost predicate Col0Walking(g0: Grid, g: Grid, h: int, w: int, r: int, e0: Pos, s: string, p: Pos) {
    && Shape(g0, h, w) && InGrid(e0, h, w) && 1 < r < h
    && IsPermutation(g, h, w) && InGrid(p, h, w) && 1 <= p.col && p.row <= r - 1
    && g[p.row][p.col] == SolvedValue(w, r, 0) && g[p.row][p.col - 1] == 0
    && Find(g, h, w, 0) == Some(LeftOf(p)) && Find(g, h, w, SolvedValue(w, r, 0)) == Some(p)
    && Run(g0, h, w, e0, s) == Done(g, LeftOf(p))
    && FixedAfter(g0, g, h, w, Pos(r - 1, w - 1))
  }

  /** Where the walk has the tile and the blank, as the position look-ups report them. */
  lemma Col0Walked(g0: Grid, g: Grid, h: int, w: int, r: int, e0: Pos, s: string, p: Pos)
    requires Col0Walking(g0, g, h, w, r, e0, s, p)
    ensures IsPermutation(g, h, w) && InGrid(p, h, w) && 1 <= p.col && p.row <= r - 1
    ensures Find(g, h, w, 0) == Some(LeftOf(p)) && Find(g, h, w, SolvedValue(w, r, 0)) == Some(p)
  {
  }

  /** The walk starts where the approach leaves the tile and the blank. */
  lemma Col0WalkStart(g0: Grid, h: int, w: int, r: int, p: Pos)
    requires IsPermutation(g0, h, w) && 1 < r < h && InGrid(p, h, w) && 1 <= p.col && p.row <= r - 1
    requires g0[p.row][p.col] == SolvedValue(w, r, 0) && g0[p.row][p.col - 1] == 0
    ensures Col0Walking(g0, g0, h, w, r, LeftOf(p), "", p)
  {
    RunEmpty(g0, h, w, LeftOf(p));
    Located(g0, h, w, LeftOf(p), 0);
    Located(g0, h, w, p, SolvedValue(w, r, 0));
  }

  /** "druld" brings the tile one row down, still above row r. */
  lemma Col0WalkDown(g0: Grid, g: Grid, h: int, w: int, r: int, e0: Pos, s: string, p: Pos)
    requires Col0Walking(g0, g, h, w, r, e0, s, p) && p.row < r - 1
    ensures var o := Run(g, h, w, LeftOf(p), "druld");
      o.Done? && Col0Walking(g0, o.grid, h, w, r, e0, s + "druld", Pos(p.row + 1, p.col))
  {
    hide Run, RunFrom, Find, FindFrom, IsPermutation, SameOutside, FixedAfter;
    PermutationShape(g, h, w);
    CycleDown(g, h, w, p.row, p.col - 1);
    Replayed(g, h, w, LeftOf(p), "druld");
    var o := Run(g, h, w, LeftOf(p), "druld");
    PermutationShape(o.grid, h, w);
    Located(o.grid, h, w, o.zero, 0);
    Located(o.grid, h, w, Pos(p.row + 1, p.col), SolvedValue(w, r, 0));
    RunThen(g0, h, w, e0, s, g, LeftOf(p), "druld", o.grid, o.zero);
    BoxFixes(g, o.grid, h, w, Box(p.row, p.row + 1, p.col - 1, p.col));
    FixedAfterChain(g0, g, o.grid, h, w, Pos(r - 1, w - 1), Pos(p.row + 1, p.col), Pos(r - 1, w - 1));
  }

  /** "rulld" brings the tile one column left, passing through the row above. */
  lemma Col0WalkLeft(g0: Grid, g: Grid, h: int, w: int, r: int, e0: Pos, s: string, p: Pos)
    requires Col0Walking(g0, g, h, w, r, e0, s, p) && 1 < p.col && 1 <= p.row
    ensures var o := Run(g, h, w, LeftOf(p), "rulld");
      o.Done? && Col0Walking(g0, o.grid, h, w, r, e0, s + "rulld", Pos(p.row, p.col - 1))
  {
    hide Run, RunFrom, Find, FindFrom, IsPermutation, SameOutside, FixedAfter;
    PermutationShape(g, h, w);
    CycleLeftOver(g, h, w, p.row, p.col - 1);
    Replayed(g, h, w, LeftOf(p), "rulld");
    var o := Run(g, h, w, LeftOf(p), "rulld");
    PermutationShape(o.grid, h, w);
    Located(o.grid, h, w, o.zero, 0);
    Located(o.grid, h, w, Pos(p.row, p.col - 1), SolvedValue(w, r, 0));
    RunThen(g0, h, w, e0, s, g, LeftOf(p), "rulld", o.grid, o.zero);
    BoxFixes(g, o.grid, h, w, Box(p.row - 1, p.row, p.col - 2, p.col));
    FixedAfterChain(g0, g, o.grid, h, w, Pos(r - 1, w - 1), Pos(p.row, p.col), Pos(r - 1, w - 1));
  }

  /**
   * With the tile at (r - 1, 1) and the blank at (r - 1, 0), the 3x2 move
   * string puts the tile home at (r, 0), gives (r, 1) back its tile and
   * leaves the blank at (r - 1, 1); nothing after (r, 0) differs from g0.
   */
  lemma Col0Place(g0: Grid, g: Grid, h: int, w: int, r: int, e0: Pos, s: string)
    requires Col0Walking(g0, g, h, w, r, e0, s, Pos(r - 1, 1)) && 2 <= w
    ensures var o := Run(g, h, w, Pos(r - 1, 0), "ruldrdlurdluurddlur");
      && o.Done? && o.zero == Pos(r - 1, 1) && Run(g0, h, w, e0, s + "ruldrdlurdluurddlur") == o
      && IsPermutation(o.grid, h, w) && o.grid[r - 1][1] == 0 && o.grid[r][0] == SolvedValue(w, r, 0)
      && FixedAfter(g0, o.grid, h, w, Pos(r, 0))
  {
    hide Run, RunFrom, Find, FindFrom, IsPermutation, SameOutside;
    PermutationShape(g, h, w);
    PlaceColumnZero(g, h, w, r - 1, 0);
    Replayed(g, h, w, Pos(r - 1, 0), "ruldrdlurdluurddlur");
    var o := Run(g, h, w, Pos(r - 1, 0), "ruldrdlurdluurddlur");
    PermutationShape(o.grid, h, w);
    RunThen(g0, h, w, e0, s, g, Pos(r - 1, 0), "ruldrdlurdluurddlur", o.grid, o.zero);
    BoxFixes(g, o.grid, h, w, Box(r - 2, r, 0, 1));
  }

  /**
   * The closing walk of the column-0 phase: the blank at (r - 1, c), the
   * tile home at (r, 0), reached from g0 with the blank at (r, 0) by s,
   * and nothing after (r, 0) changed.
   */
  ghost predicate Col0Closing(g0: Grid, g: Grid, h: int, w: int, r: int, s: string, c: int) {
    && Shape(g0, h, w) && 1 < r < h && 0 <= c < w
    && IsPermutation(g, h, w) && g[r - 1][c] == 0 && g[r][0] == SolvedValue(w, r, 0)
    && Find(g, h, w, 0) == Some(Pos(r - 1, c))
    && Run(g0, h, w, Pos(r, 0), s) == Done(g, Pos(r - 1, c))
    && FixedAfter(g0, g, h, w, Pos(r, 0))
  }

  /** One "r" of the closing walk: the blank moves right along row r - 1. */
  lemma Col0RightStep(g0: Grid, g: Grid, h: int, w: int, r: int, s: string, c: int)
    requires Col0Closing(g0, g, h, w, r, s, c) && c < w - 1
    ensures var o := Run(g, h, w, Pos(r - 1, c), "r");
      o.Done? && Col0Closing(g0, o.grid, h, w, r, s + "r", c + 1)
  {
    hide Run, RunFrom, Find, FindFrom, IsPermutation;
    PermutationShape(g, h, w);
    Stepped(g, h, w, Pos(r - 1, c), 'r');
    assert "r" == ['r'];
    var o := Run(g, h, w, Pos(r - 1, c), "r");
    SlideSwaps(g, h, w, Pos(r - 1, c), Pos(r - 1, c + 1));
    Located(o.grid, h, w, o.zero, 0);
    RunThen(g0, h, w, Pos(r, 0), s, g, Pos(r - 1, c), "r", o.grid, o.zero);
  }

  /**
   * At the end of the closing walk the lower-row invariant holds at
   * (r - 1, w - 1): row r is solved again, with its first tile placed.
   */
  lemma Col0Done(g0: Grid, g: Grid, h: int, w: int, r: int, s: string)
    requires IsPermutation(g0, h, w) && LowerRowInvariant(g0, h, w, r, 0)
    requires Col0Closing(g0, g, h, w, r, s, w - 1)
    ensures LowerRowInvariant(g, h, w, r - 1, w - 1)
  {
  }

  // ---------------------------------------------------------------------
  // The 2x2 phase

  /** "lu" followed by k rounds of "rdlu": the moves the 2x2 phase tries. */
  function TwoByTwoMoves(k: nat): (s: string)
    ensures |s| == 2 + 4 * k
  {
    "lu" + Repeat("rdlu", k)
  }

  /** Replaying TwoByTwoMoves(k) from the blank at (1, 1) solves the 2x2 block. */
  ghost predicate SolvesAfter(g0: Grid, h: int, w: int, k: nat) {
    && Shape(g0, h, w) && 2 <= h && 2 <= w
    && var o := Run(g0, h, w, Pos(1, 1), TwoByTwoMoves(k));
       o.Done? && TwoByTwoSolved(o.grid, h, w)
  }

  /**
   * The 2x2 phase after k rounds: the blank at (0, 0), reached from g0 with
   * the blank at (1, 1) by TwoByTwoMoves(k), and nothing outside the top-left
   * 2x2 block changed.
   */
  ghost predicate TwoByTwoAt(g0: Grid, g: Grid, h: int, w: int, k: nat) {
    && Shape(g0, h, w) && 2 <= h && 2 <= w
    && IsPermutation(g, h, w) && g[0][0] == 0 && Find(g, h, w, 0) == Some(Pos(0, 0))
    && Run(g0, h, w, Pos(1, 1), TwoByTwoMoves(k)) == Done(g, Pos(0, 0))
    && FixedAfter(g0, g, h, w, Pos(1, 1)) && FixedRightOf(g0, g, h, w, 1)
  }

  /** "lu" takes the blank from (1, 1) to (0, 0) inside the block. */
  lemma TwoByTwoStart(g0: Grid, h: int, w: int)
    requires IsPermutation(g0, h, w) && Row1Invariant(g0, h, w, 1)
    ensures 2 <= h && 2 <= w && Find(g0, h, w, 0) == Some(Pos(1, 1))
    ensures var o := Run(g0, h, w, Pos(1, 1), "lu"); o.Done? && TwoByTwoAt(g0, o.grid, h, w, 0)
  {
    hide Run, RunFrom, Find, FindFrom, IsPermutation, SameOutside, FixedAfter, FixedRightOf;
    PermutationShape(g0, h, w);
    LeftUp(g0, h, w, 1, 1);
    Replayed(g0, h, w, Pos(1, 1), "lu");
    var o := Run(g0, h, w, Pos(1, 1), "lu");
    PermutationShape(o.grid, h, w);
    Located(o.grid, h, w, Pos(0, 0), 0);
    assert TwoByTwoMoves(0) == "lu";
    BoxFixes(g0, o.grid, h, w, Box(0, 1, 0, 1));
  }

  /** One more "rdlu" round keeps the blank at (0, 0) and the rest of the grid. */
  lemma TwoByTwoStep(g0: Grid, g: Grid, h: int, w: int, k: nat)
    requires TwoByTwoAt(g0, g, h, w, k)
    ensures var o := Run(g, h, w, Pos(0, 0), "rdlu"); o.Done? && TwoByTwoAt(g0, o.grid, h, w, k + 1)
  {
    hide Run, RunFrom, Find, FindFrom, IsPermutation, SameOutside, FixedAfter, FixedRightOf;
    PermutationShape(g, h, w);
    RotateSquare(g, h, w, 0, 0);
    Replayed(g, h, w, Pos(0, 0), "rdlu");
    var o := Run(g, h, w, Pos(0, 0), "rdlu");
    PermutationShape(o.grid, h, w);
    Located(o.grid, h, w, Pos(0, 0), 0);
    assert TwoByTwoMoves(k + 1) == TwoByTwoMoves(k) + "rdlu";
    RunThen(g0, h, w, Pos(1, 1), TwoByTwoMoves(k), g, Pos(0, 0), "rdlu", o.grid, Pos(0, 0));
    BoxFixes(g, o.grid, h, w, Box(0, 1, 0, 1));
    FixedAfterChain(g0, g, o.grid, h, w, Pos(1, 1), Pos(1, 1), Pos(1, 1));
    FixedRightOfChain(g0, g, o.grid, h, w, 1, 1, 1);
  }

  /** The phase's check on the current grid is the check on the replay. */
  lemma TwoByTwoChecked(g0: Grid, g: Grid, h: int, w: int, k: nat)
    requires TwoByTwoAt(g0, g, h, w, k)
    ensures SolvesAfter(g0, h, w, k) == TwoByTwoSolved(g, h, w)
  {
  }

  /**
   * Three "rdlu" rounds bring the block back to where they started, so a
   * fourth round could only repeat an arrangement already tried.
   */
  lemma RotateThrice(g: Grid, h: int, w: int)
    requires Shape(g, h, w) && 2 <= h && 2 <= w && g[0][0] == 0
    ensures Run(g, h, w, Pos(0, 0), Repeat("rdlu", 3)) == Done(g, Pos(0, 0))
  {
    hide RunFrom;
    RotateSquare(g, h, w, 0, 0);
    var o1 := Run(g, h, w, Pos(0, 0), "rdlu");
    RotateSquare(o1.grid, h, w, 0, 0);
    var o2 := Run(o1.grid, h, w, Pos(0, 0), "rdlu");
    RotateSquare(o2.grid, h, w, 0, 0);
    var o3 := Run(o2.grid, h, w, Pos(0, 0), "rdlu");
    RunThen(g, h, w, Pos(0, 0), "rdlu", o1.grid, Pos(0, 0), "rdlu", o2.grid, Pos(0, 0));
    RunThen(g, h, w, Pos(0, 0), "rdlu" + "rdlu", o2.grid, Pos(0, 0), "rdlu", o3.grid, Pos(0, 0));
    assert Repeat("rdlu", 3) == "rdlu" + "rdlu" + "rdlu";
    forall r | 0 <= r < h
      ensures o3.grid[r] == g[r]
    {
      assert forall c :: 0 <= c < w ==> o3.grid[r][c] == g[r][c];
    }
  }

  /** The 2x2 phase's arrangements repeat with period three. */
  lemma TwoByTwoCycle(g0: Grid, g: Grid, h: int, w: int, k: nat)
    requires TwoByTwoAt(g0, g, h, w, k)
    ensures TwoByTwoAt(g0, g, h, w, k + 3)
  {
    hide Run, RunFrom, Find, FindFrom, IsPermutation, FixedAfter, FixedRightOf;
    PermutationShape(g, h, w);
    RotateThrice(g, h, w);
    RunThen(g0, h, w, Pos(1, 1), TwoByTwoMoves(k), g, Pos(0, 0), Repeat("rdlu", 3), g, Pos(0, 0));
    assert Repeat("rdlu", k + 3) == Repeat("rdlu", k) + Repeat("rdlu", 3) by {
      assert Repeat("rdlu", k + 3) == Repeat("rdlu", k + 2) + "rdlu";
      assert Repeat("rdlu", k + 2) == Repeat("rdlu", k + 1) + "rdlu";
      assert Repeat("rdlu", k + 1) == Repeat("rdlu", k) + "rdlu";
      assert Repeat("rdlu", 3) == "rdlu" + "rdlu" + "rdlu";
    }
    assert TwoByTwoMoves(k + 3) == TwoByTwoMoves(k) + Repeat("rdlu", 3);
  }

  /**
   * After the 2x2 phase, started with the row-1 invariant at column 1 and
   * row 0 solved right of column 1, every cell outside the top-left 2x2
   * block is solved, and the grid is the solved grid exactly when the block
   * is.
   */
  lemma TwoByTwoFinishes(g0: Grid, g: Grid, h: int, w: int)
    requires IsPermutation(g0, h, w) && Row1Ready(g0, h, w, 1) && 2 <= h && 2 <= w
    requires Shape(g, h, w) && FixedAfter(g0, g, h, w, Pos(1, 1)) && FixedRightOf(g0, g, h, w, 1)
    ensures forall r, c :: 0 <= r < h && 0 <= c < w && (1 < r || 1 < c) ==> g[r][c] == SolvedValue(w, r, c)
    ensures TwoByTwoSolved(g, h, w) <==> g == SolvedGrid(h, w)
  {
    var s := SolvedGrid(h, w);
    if TwoByTwoSolved(g, h, w) {
      forall r | 0 <= r < h
        ensures g[r] == s[r]
      {
        assert forall c :: 0 <= c < w ==> g[r][c] == s[r][c];
      }
    }
  }

  /**
   * Two 2x2 boards: [[2, 1], [3, 0]] is solved by "lu" alone, and
   * [[3, 2], [1, 0]] needs one "rdlu" round after it.
   */
  lemma TwoByTwoExamples()
    ensures SolvesAfter([[2, 1], [3, 0]], 2, 2, 0)
    ensures !SolvesAfter([[3, 2], [1, 0]], 2, 2, 0) && SolvesAfter([[3, 2], [1, 0]], 2, 2, 1)
  {
    hide RunFrom, SameOutside;
    var a: Grid := [[2, 1], [3, 0]];
    LeftUp(a, 2, 2, 1, 1);
    assert TwoByTwoMoves(0) == "lu";
    var b: Grid := [[3, 2], [1, 0]];
    LeftUp(b, 2, 2, 1, 1);
    var o := Run(b, 2, 2, Pos(1, 1), "lu");
    RotateSquare(o.grid, 2, 2, 0, 0);
    RunThen(b, 2, 2, Pos(1, 1), "lu", o.grid, o.zero, "rdlu", Run(o.grid, 2, 2, Pos(0, 0), "rdlu").grid, Pos(0, 0));
    assert TwoByTwoMoves(1) == "lu" + "rdlu";
  }

  // ---------------------------------------------------------------------
  // Bringing the blank to the last cell

  /**
   * The moves that take the blank down `down` rows and right `right`
   * columns, a "d" and an "r" per round while both are left to do.
   */
  function EndMoves(down: nat, right: nat): (s: string)
    decreases down + right
  {
    if down == 0 && right == 0 then ""
    else
      (if 0 < down then "d" else "") + (if 0 < right then "r" else "")
      + EndMoves(if 0 < down then down - 1 else 0, if 0 < right then right - 1 else 0)
  }

  /** EndMoves holds exactly `down` "d"s, `right` "r"s and nothing else. */
  lemma {:induction false} EndMovesCount(down: nat, right: nat)
    ensures var s := EndMoves(down, right);
      |s| == down + right && multiset(s)['d'] == down && multiset(s)['r'] == right
    decreases down + right
  {
    if down != 0 || right != 0 {
      var d', r' := if 0 < down then down - 1 else 0, if 0 < right then right - 1 else 0;
      EndMovesCount(d', r');
      var a, b := if 0 < down then "d" else "", if 0 < right then "r" else "";
      assert EndMoves(down, right) == a + b + EndMoves(d', r');
      assert multiset(a + b + EndMoves(d', r')) == multiset(a) + multiset(b) + multiset(EndMoves(d', r'));
    }
  }

  /** The blank at z, reached from z0 in g0 by s, in a permutation. */
  ghost predicate EndWalk(g0: Grid, g: Grid, h: int, w: int, z0: Pos, s: string, z: Pos) {
    && Shape(g0, h, w) && InGrid(z0, h, w)
    && IsPermutation(g, h, w) && InGrid(z, h, w) && g[z.row][z.col] == 0
    && Find(g, h, w, 0) == Some(z)
    && Run(g0, h, w, z0, s) == Done(g, z)
  }

  /** Where the walk has the blank, as the position look-up reports it. */
  lemma EndWalked(g0: Grid, g: Grid, h: int, w: int, z0: Pos, s: string, z: Pos)
    requires EndWalk(g0, g, h, w, z0, s, z)
    ensures Shape(g, h, w) && InGrid(z, h, w) && Find(g, h, w, 0) == Some(z)
  {
  }

  /** One "d" or "r" that stays on the grid extends the walk. */
  lemma EndStep(g0: Grid, g: Grid, h: int, w: int, z0: Pos, s: string, z: Pos, ch: char)
    requires EndWalk(g0, g, h, w, z0, s, z)
    requires (ch == 'd' && z.row < h - 1) || (ch == 'r' && z.col < w - 1)
    ensures var o := Run(g, h, w, z, [ch]);
      o.Done? && EndWalk(g0, o.grid, h, w, z0, s + [ch], Neighbour(z, ch))
  {
    hide Run, RunFrom, Find, FindFrom, IsPermutation;
    PermutationShape(g, h, w);
    Stepped(g, h, w, z, ch);
    var o := Run(g, h, w, z, [ch]);
    PermutationShape(o.grid, h, w);
    Located(o.grid, h, w, o.zero, 0);
    RunThen(g0, h, w, z0, s, g, z, [ch], o.grid, o.zero);
  }

  /** The walk is done when the blank is in the last cell. */
  lemma EndWalkStart(g0: Grid, h: int, w: int, z0: Pos)
    requires IsPermutation(g0, h, w) && InGrid(z0, h, w) && g0[z0.row][z0.col] == 0
    ensures EndWalk(g0, g0, h, w, z0, "", z0)
  {
    RunEmpty(g0, h, w, z0);
    Located(g0, h, w, z0, 0);
  }

  /** The moves of one round from the blank at z: down, then right, where there is room. */
  function RoundMoves(z: Pos, h: int, w: int): string {
    (if z.row < h - 1 then "d" else "") + (if z.col < w - 1 then "r" else "")
  }

  /** Where one round from z leaves the blank. */
  function RoundEnd(z: Pos, h: int, w: int): Pos {
    Pos(if z.row < h - 1 then z.row + 1 else z.row, if z.col < w - 1 then z.col + 1 else z.col)
  }

  /**
   * A round is the head of what is left of the walk: with s done and the
   * blank at z, short of the last cell, s + RoundMoves(z) is done and the
   * walk from RoundEnd(z) is what then remains.
   */
  lemma EndRound(s: string, total: string, z: Pos, h: int, w: int)
    requires InGrid(z, h, w) && z != Pos(h - 1, w - 1)
    requires s + EndMoves(h - 1 - z.row, w - 1 - z.col) == total
    ensures var n := RoundEnd(z, h, w);
      InGrid(n, h, w) && s + RoundMoves(z, h, w) + EndMoves(h - 1 - n.row, w - 1 - n.col) == total
  {
    var n := RoundEnd(z, h, w);
    var rest := EndMoves(h - 1 - n.row, w - 1 - n.col);
    assert EndMoves(h - 1 - z.row, w - 1 - z.col) == RoundMoves(z, h, w) + rest;
    assert s + RoundMoves(z, h, w) + rest == s + (RoundMoves(z, h, w) + rest);
  }

  // ---------------------------------------------------------------------
  // The orchestrator's stages

  /**
   * Which phase the blank's cell z calls for, with that phase's entry
   * invariant: an interior or column-0 tile below row 1, a row-1 tile, or a
   * row-0 tile; (1, 1) is the row-1 invariant the 2x2 phase starts from.
   */
  ghost predicate Stage(g: Grid, h: int, w: int, z: Pos)
    requires Shape(g, h, w)
  {
    && 2 <= h && 2 <= w && InGrid(z, h, w)
    && (if 1 < z.row then LowerRowInvariant(g, h, w, z.row, z.col)
        else if z.row == 1 then 0 < z.col && Row1Ready(g, h, w, z.col)
        else 1 < z.col && Row0Ready(g, h, w, z.col))
  }

  /** Ranks the stages in the order the phases visit them, last first. */
  function StageRank(z: Pos, w: int): int {
    if 1 < z.row then 2 * w + 2 + z.row * w + z.col else 2 * z.col + z.row
  }

  /** What a stage says about the grid, in the terms the phases take. */
  lemma StageFacts(g: Grid, h: int, w: int, z: Pos)
    requires Shape(g, h, w) && Stage(g, h, w, z)
    ensures 2 <= h && 2 <= w && InGrid(z, h, w) && Find(g, h, w, 0) == Some(z) && 0 <= StageRank(z, w)
    ensures 1 < z.row ==> LowerRowInvariant(g, h, w, z.row, z.col)
    ensures z.row == 1 ==> 0 < z.col && Row1Ready(g, h, w, z.col)
    ensures z.row == 0 ==> 1 < z.col && Row0Ready(g, h, w, z.col)
    ensures z.row < 2 && z.col < 2 ==> z == Pos(1, 1) && Row1Invariant(g, h, w, 1)
  {
  }

  /**
   * The lower-row invariant is a stage below row 1, and at the end of row 1
   * (where the column-0 phase of row 2 leaves the blank).
   */
  lemma StageLower(g: Grid, h: int, w: int, r: int, c: int)
    requires Shape(g, h, w) && 2 <= h && 2 <= w && 1 <= r < h && 0 <= c < w && (r == 1 ==> c == w - 1)
    requires LowerRowInvariant(g, h, w, r, c)
    ensures Stage(g, h, w, Pos(r, c))
  {
  }

  /** The row-1 phase's exit invariant is a row-0 stage. */
  lemma StageRow0(g: Grid, h: int, w: int, c: int)
    requires Shape(g, h, w) && 2 <= w && 1 < c < w && Row0Ready(g, h, w, c)
    ensures Stage(g, h, w, Pos(0, c))
  {
  }

  /** The row-0 phase's exit invariant is a row-1 stage. */
  lemma StageRow1(g: Grid, h: int, w: int, c: int)
    requires Shape(g, h, w) && 2 <= h && 2 <= w && 0 < c < w && Row1Ready(g, h, w, c)
    ensures Stage(g, h, w, Pos(1, c))
  {
  }

  /** The blank in the last cell is the first stage. */
  lemma StageStart(g: Grid, h: int, w: int)
    requires Shape(g, h, w) && 2 <= h && 2 <= w && Find(g, h, w, 0) == Some(Pos(h - 1, w - 1))
    ensures Stage(g, h, w, Pos(h - 1, w - 1))
  {
  }

  /** Every phase moves the blank to a lower-ranked stage. */
  lemma StageRankDrops(r: int, c: int, w: int)
    requires 2 <= w && 0 <= r && 0 <= c < w
    ensures 1 < r && 0 < c ==> StageRank(Pos(r, c - 1), w) < StageRank(Pos(r, c), w)
    ensures 1 < r && c == 0 ==> StageRank(Pos(r - 1, w - 1), w) < StageRank(Pos(r, 0), w)
    ensures r == 1 && 1 < c ==> StageRank(Pos(0, c), w) < StageRank(Pos(1, c), w)
    ensures r == 0 && 1 < c ==> StageRank(Pos(1, c - 1), w) < StageRank(Pos(0, c), w)
  {
    assert (r - 1) * w == r * w - w;
  }
}
