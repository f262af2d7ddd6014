/**
 * The blank's approach to the tile being placed: the loop of
 * `_zero_to_target` moves the blank up until it is level with the tile and
 * across until it reaches the tile's cell, so that the tile falls into the
 * cell the blank last left; a short fix-up then leaves the blank
 * immediately left of the tile. The state of that loop is described once
 * here, so that the method performing it only has to carry one predicate.
 */
module PuzzleApproach {
  import opened PuzzleGrid
  import opened PuzzleMoves
  import opened PuzzleFrames
  import opened PuzzleMacros
  import opened PuzzleWalks

  function Below(p: Pos): Pos { Pos(p.row + 1, p.col) }
  function RightOf(p: Pos): Pos { Pos(p.row, p.col + 1) }
  function Dist(a: int, b: int): nat { if a < b then b - a else a - b }

  /** Every cell in which g' differs from g lies in the approach region from z towards t. */
  ghost predicate ChangedWithin(g: Grid, g': Grid, h: int, w: int, t: Pos, z: Pos)
    requires Shape(g, h, w) && Shape(g', h, w)
  {
    forall r, c :: 0 <= r < h && 0 <= c < w && g'[r][c] != g[r][c] ==> InApproach(t, z, Pos(r, c))
  }

  /**
   * The approach so far: replaying s from the blank's starting cell z0 has
   * brought the blank to z inside the approach region and disturbed nothing
   * outside it; the tile v is still at its cell t until the blank gets
   * there, and then in the cell the blank came from.
   */
  ghost predicate Approaching(g0: Grid, g: Grid, h: int, w: int, z0: Pos, t: Pos, v: int, s: string, z: Pos, q: Pos)
  {
    && IsPermutation(g0, h, w) && InGrid(z0, h, w) && g0[z0.row][z0.col] == 0
    && InGrid(t, h, w) && g0[t.row][t.col] == v && Before(t, z0)
    && InGrid(z, h, w) && Run(g0, h, w, z0, s) == Done(g, z)
    && IsPermutation(g, h, w) && g[z.row][z.col] == 0 && InApproach(t, z0, z)
    && InGrid(q, h, w) && g[q.row][q.col] == v && InApproach(t, z0, q)
    && (z != t ==> q == t)
    && (z == t ==> q == Below(t) || q == LeftOf(t) || q == RightOf(t))
    && ChangedWithin(g0, g, h, w, t, z0)
  }

  /**
   * Where an approach towards the tile for `home` ends: replaying s from z0
   * leaves the tile v at p and the blank at e, immediately left of it, or
   * above it when the tile already sits at home. Nothing after z0 changed
   * unless the blank started in column 0 away from home, nothing right of
   * the columns of z0 and t (and of column 1) changed, and the tile did not
   * go past z0.
   */
  ghost predicate Approached(g0: Grid, g: Grid, h: int, w: int, z0: Pos, t: Pos, v: int, home: Pos, s: string, p: Pos, e: Pos)
  {
    && Shape(g0, h, w) && InGrid(z0, h, w) && InGrid(e, h, w) && Run(g0, h, w, z0, s) == Done(g, e)
    && IsPermutation(g, h, w) && g[e.row][e.col] == 0
    && InGrid(p, h, w) && g[p.row][p.col] == v
    && (e == LeftOf(p) || (p == home && e == Above(p)))
    && t.row <= p.row <= z0.row && p.col <= Max(Max(z0.col, t.col), 1)
    && ((z0 == home || 1 <= z0.col) ==> FixedAfter(g0, g, h, w, z0) && !Before(z0, p))
    && FixedRightOf(g0, g, h, w, Max(Max(z0.col, t.col), 1))
  }

  /** The fix-up after the approach, chosen from where the blank sits relative to the tile. */
  function FinishMoves(zero: Pos, tile: Pos, home: Pos): string {
    if tile == home then ""
    else if zero == Above(tile) then (if zero.col == 0 then "rdl" else "ld")
    else if zero == RightOf(tile) then "l"
    else ""
  }

  /** Where the fix-up leaves the tile. */
  function FinalTile(zero: Pos, tile: Pos, home: Pos): Pos {
    if tile == home then tile
    else if zero == Above(tile) then (if zero.col == 0 then RightOf(tile) else tile)
    else if zero == RightOf(tile) then zero
    else tile
  }

  /** The approach starts with nothing replayed and the tile at its cell. */
  lemma ApproachStart(g0: Grid, h: int, w: int, z0: Pos, t: Pos, v: int)
    requires IsPermutation(g0, h, w) && InGrid(z0, h, w) && g0[z0.row][z0.col] == 0
    requires InGrid(t, h, w) && g0[t.row][t.col] == v && Before(t, z0)
    ensures Approaching(g0, g0, h, w, z0, t, v, "", z0, t)
    ensures Find(g0, h, w, 0) == Some(z0) && Find(g0, h, w, v) == Some(t)
  {
    FindInPermutation(g0, h, w, z0);
    FindInPermutation(g0, h, w, t);
    assert Run(g0, h, w, z0, "") == Done(g0, z0);
  }

  /** During the approach the scan finds the blank where the approach put it. */
  lemma ApproachFound(g0: Grid, g: Grid, h: int, w: int, z0: Pos, t: Pos, v: int, s: string, z: Pos, q: Pos)
    requires Approaching(g0, g, h, w, z0, t, v, s, z, q)
    ensures Find(g, h, w, 0) == Some(z) && t.row <= z.row <= z0.row
  {
    FindInPermutation(g, h, w, z);
  }

  /**
   * One move of the approach: up while below the tile's row, or across
   * towards its column from a row other than z0's (or from z0's row when
   * the tile shares it). The tile stays put unless the blank enters its
   * cell, and then takes the cell the blank left.
   */
  lemma ApproachMove(g0: Grid, g: Grid, h: int, w: int, z0: Pos, t: Pos, v: int, s: string, z: Pos, q: Pos, m: string)
    requires Approaching(g0, g, h, w, z0, t, v, s, z, q) && z != t
    requires || (m == "u" && t.row < z.row)
             || (m == "l" && t.col < z.col && (z.row == t.row || z.row < z0.row))
             || (m == "r" && z.col < t.col && (z.row == t.row || z.row < z0.row))
    ensures Find(g, h, w, 0) == Some(z)
    ensures var n := Neighbour(z, m[0]); var o := Run(g, h, w, z, m);
      && o.Done? && o.zero == n && t.row <= n.row <= z0.row && (m == "u" ==> n.row < z0.row)
      && Approaching(g0, o.grid, h, w, z0, t, v, s + m, n, if n == t then z else q)
  {
    hide Run, RunFrom, Find, FindFrom, IsPermutation;
    PermutationShape(g0, h, w);
    PermutationShape(g, h, w);
    var ch := m[0];
    assert m == [ch];
    var n := Neighbour(z, ch);
    Stepped(g, h, w, z, ch);
    var g' := Slide(g, h, w, z, n);
    RunThen(g0, h, w, z0, s, g, z, [ch], g', n);
    var q' := if n == t then z else q;
    assert g'[q'.row][q'.col] == v;
    ChangedWithinStep(g0, g, g', h, w, t, z0, z, n);
  }

  /**
   * One round of the approach: the vertical move towards the tile's row
   * (never "d", since the blank starts at or below it) followed by the
   * horizontal move towards its column. The blank gets strictly nearer,
   * row first, and the scan finds it where the round left it.
   */
  lemma ApproachRound(g0: Grid, g: Grid, h: int, w: int, z0: Pos, t: Pos, v: int, s: string, z: Pos, q: Pos,
                      up: string, across: string)
    returns (z': Pos, q': Pos)
    requires Approaching(g0, g, h, w, z0, t, v, s, z, q) && z != t
    requires up == (if z.row > t.row then "u" else if z.row < t.row then "d" else "")
    requires across == (if z.col > t.col then "l" else if z.col < t.col then "r" else "")
    ensures IsPermutation(g, h, w) && g[z.row][z.col] == 0 && Find(g, h, w, 0) == Some(z)
    ensures var o := Run(g, h, w, z, up + across);
      && o.Done? && o.zero == z' && Find(o.grid, h, w, 0) == Some(z')
      && Approaching(g0, o.grid, h, w, z0, t, v, s + (up + across), z', q')
    ensures t.row <= z'.row <= z0.row
    ensures z'.row < z.row || (z'.row == z.row && Dist(z'.col, t.col) < Dist(z.col, t.col))
  {
    hide Run, RunFrom, Find, FindFrom, IsPermutation;
    PermutationShape(g, h, w);
    ApproachFound(g0, g, h, w, z0, t, v, s, z, q);
    var g1, z1, q1 := g, z, q;
    if up != "" {
      ApproachMove(g0, g, h, w, z0, t, v, s, z, q, up);
      z1 := Neighbour(z, up[0]);
      g1, q1 := Run(g, h, w, z, up).grid, if z1 == t then z else q;
    } else {
      RunEmpty(g, h, w, z);
      assert s + up == s;
    }
    PermutationShape(g1, h, w);
    var g2, z2, q2 := g1, z1, q1;
    if across != "" {
      ApproachMove(g0, g1, h, w, z0, t, v, s + up, z1, q1, across);
      z2 := Neighbour(z1, across[0]);
      g2, q2 := Run(g1, h, w, z1, across).grid, if z2 == t then z1 else q1;
    } else {
      RunEmpty(g1, h, w, z1);
      assert s + up + across == s + up;
    }
    RunThen(g, h, w, z, up, g1, z1, across, g2, z2);
    assert s + up + across == s + (up + across);
    ApproachFound(g0, g2, h, w, z0, t, v, s + (up + across), z2, q2);
    z', q' := z2, q2;
  }

  /** A move between two cells of the approach region keeps the change inside it. */
  lemma ChangedWithinStep(g0: Grid, g: Grid, g': Grid, h: int, w: int, t: Pos, z0: Pos, z: Pos, n: Pos)
    requires Shape(g0, h, w) && Shape(g, h, w) && Shape(g', h, w)
    requires ChangedWithin(g0, g, h, w, t, z0) && InApproach(t, z0, z) && InApproach(t, z0, n)
    requires forall r, c :: 0 <= r < h && 0 <= c < w && Pos(r, c) != z && Pos(r, c) != n ==> g'[r][c] == g[r][c]
    ensures ChangedWithin(g0, g', h, w, t, z0)
  {
  }

  /** The fix-up when the tile is home already or the blank is left of it. */
  lemma FinishStay(g0: Grid, g: Grid, h: int, w: int, z0: Pos, t: Pos, v: int, s: string, q: Pos, home: Pos)
    requires Approaching(g0, g, h, w, z0, t, v, s, t, q)
    requires home == z0 || !InApproach(t, z0, home)
    requires q == home || q == RightOf(t)
    ensures Run(g, h, w, t, "") == Done(g, t)
    ensures Approached(g0, g, h, w, z0, t, v, home, s + "", q, t)
  {
    assert s + "" == s;
    assert Run(g, h, w, t, "") == Done(g, t);
    ApproachFixes(g0, g, h, w, t, z0);
  }

  /** The fix-up "rdl" or "ld" when the blank is above the tile. */
  lemma FinishAbove(g0: Grid, g: Grid, h: int, w: int, z0: Pos, t: Pos, v: int, s: string, q: Pos, home: Pos)
    requires Approaching(g0, g, h, w, z0, t, v, s, t, q) && 2 <= w
    requires home == z0 || !InApproach(t, z0, home)
    requires q != home && q == Below(t)
    ensures var m := FinishMoves(t, q, home); var o := Run(g, h, w, t, m);
      o.Done? && Approached(g0, o.grid, h, w, z0, t, v, home, s + m, FinalTile(t, q, home), o.zero)
  {
    hide Run, RunFrom, Find, FindFrom, IsPermutation, SameOutside, FixedAfter, FixedRightOf;
    PermutationShape(g0, h, w);
    PermutationShape(g, h, w);
    var m := FinishMoves(t, q, home);
    var b := if t.col == 0 then Box(t.row, q.row, 0, 1) else Box(t.row, q.row, t.col - 1, t.col);
    if t.col == 0 {
      RightDownLeft(g, h, w, t.row, t.col);
    } else {
      LeftDown(g, h, w, t.row, t.col);
    }
    var o := Run(g, h, w, t, m);
    Replayed(g, h, w, t, m);
    RunThen(g0, h, w, z0, s, g, t, m, o.grid, o.zero);
    ApproachFixes(g0, g, h, w, t, z0);
    BoxFixes(g, o.grid, h, w, b);
    FixedRightOfChain(g0, g, o.grid, h, w, Max(t.col, z0.col), b.right, Max(Max(z0.col, t.col), 1));
    if z0 == home || 1 <= z0.col {
      assert q.row < z0.row || q == z0;
      FixedAfterChain(g0, g, o.grid, h, w, z0, Pos(b.bottom, b.right), z0);
    }
  }

  /** The fix-up "l" when the blank is right of the tile. */
  lemma FinishRight(g0: Grid, g: Grid, h: int, w: int, z0: Pos, t: Pos, v: int, s: string, q: Pos, home: Pos)
    requires Approaching(g0, g, h, w, z0, t, v, s, t, q)
    requires home == z0 || !InApproach(t, z0, home)
    requires q != home && q == LeftOf(t)
    ensures var o := Run(g, h, w, t, "l");
      o.Done? && Approached(g0, o.grid, h, w, z0, t, v, home, s + "l", t, o.zero)
  {
    Stepped(g, h, w, t, 'l');
    var g' := Slide(g, h, w, t, q);
    assert "l" == ['l'];
    RunThen(g0, h, w, z0, s, g, t, "l", g', q);
    ApproachFixes(g0, g, h, w, t, z0);
    assert FixedAfter(g, g', h, w, t);
    assert FixedRightOf(g, g', h, w, t.col);
    FixedRightOfChain(g0, g, g', h, w, Max(t.col, z0.col), t.col, Max(Max(z0.col, t.col), 1));
    FixedAfterChain(g0, g, g', h, w, z0, t, z0);
  }

  /**
   * Where the approach ends: the blank is at the tile's old cell t, the tile
   * beside it, and the fix-up leaves the state `Approached` describes.
   */
  lemma ApproachFinish(g0: Grid, g: Grid, h: int, w: int, z0: Pos, t: Pos, v: int, s: string, q: Pos, home: Pos)
    requires Approaching(g0, g, h, w, z0, t, v, s, t, q) && 2 <= w
    requires home == z0 || !InApproach(t, z0, home)
    ensures Find(g, h, w, 0) == Some(t) && Find(g, h, w, v) == Some(q)
    ensures var m := FinishMoves(t, q, home); var o := Run(g, h, w, t, m);
      && o.Done? && (m == "" ==> o == Done(g, t))
      && Approached(g0, o.grid, h, w, z0, t, v, home, s + m, FinalTile(t, q, home), o.zero)
  {
    FindInPermutation(g, h, w, t);
    FindInPermutation(g, h, w, q);
    if q == home || q == RightOf(t) {
      FinishStay(g0, g, h, w, z0, t, v, s, q, home);
    } else if q == Below(t) {
      FinishAbove(g0, g, h, w, z0, t, v, s, q, home);
    } else {
      FinishRight(g0, g, h, w, z0, t, v, s, q, home);
    }
  }
}
