/**
 * The solver's walking loops: one macro repeated while the blank stays
 * immediately left of the tile being placed. Each walk is proved once, by
 * induction on the number of rounds, so that the loops that perform it
 * only have to count rounds.
 */
module PuzzleWalks {
  import opened PuzzleGrid
  import opened PuzzleMoves
  import opened PuzzleMacros
  import opened PuzzleFrames

  /** m written k times over. */
  function Repeat(m: string, k: nat): (s: string)
    ensures |s| == k * |m|
  {
    if k == 0 then [] else Repeat(m, k - 1) + m
  }

  /** Replaying nothing leaves grid and blank as they are. */
  lemma RunEmpty(g: Grid, h: int, w: int, z: Pos)
    requires Shape(g, h, w) && InGrid(z, h, w)
    ensures Run(g, h, w, z, []) == Done(g, z)
  {
  }

  /**
   * After a completed replay from the blank of a permutation, the scan finds
   * the blank where the replay left it and any tile where it lies.
   */
  lemma LocatedAfter(g: Grid, h: int, w: int, z: Pos, s: string, p: Pos, v: int)
    requires IsPermutation(g, h, w) && InGrid(z, h, w) && g[z.row][z.col] == 0
    requires Run(g, h, w, z, s).Done?
    requires InGrid(p, h, w) && Run(g, h, w, z, s).grid[p.row][p.col] == v
    ensures var o := Run(g, h, w, z, s);
      Find(o.grid, h, w, 0) == Some(o.zero) && Find(o.grid, h, w, v) == Some(p)
  {
    var o := Run(g, h, w, z, s);
    RunPreservesPermutation(g, h, w, z, s, 0);
    FindInPermutation(o.grid, h, w, o.zero);
    FindInPermutation(o.grid, h, w, p);
  }

  // ---------------------------------------------------------------------
  // "druld" repeated

  /** One more "druld" round on top of k - 1 rounds: the tile's value and the frame carry over. */
  lemma DownJoin(g: Grid, g1: Grid, g2: Grid, h: int, w: int, p: Pos, k: nat)
    requires Shape(g, h, w) && Shape(g1, h, w) && Shape(g2, h, w)
    requires InGrid(p, h, w) && 1 <= k && 1 <= p.col && p.row + k < h
    requires g1[p.row + (k - 1)][p.col] == g[p.row][p.col]
    requires SameOutside(g, g1, h, w, Box(p.row, p.row + (k - 1), p.col - 1, p.col))
    requires g2[p.row + k][p.col] == g1[p.row + (k - 1)][p.col]
    requires SameOutside(g1, g2, h, w, Box((p.row + (k - 1)), (p.row + (k - 1)) + 1, (p.col - 1), (p.col - 1) + 1))
    ensures g2[p.row + k][p.col] == g[p.row][p.col]
    ensures SameOutside(g, g2, h, w, Box(p.row, p.row + k, p.col - 1, p.col))
  {
  }

  /**
   * k rounds of "druld" from the blank immediately left of the tile at p
   * carry the tile k rows down, keep the blank immediately left of it and
   * change nothing outside the rows and columns they run through.
   */
  lemma {:induction false} DownWalk(g: Grid, h: int, w: int, p: Pos, k: nat)
    requires Shape(g, h, w) && InGrid(p, h, w) && 1 <= p.col && p.row + k < h
    requires g[p.row][p.col - 1] == 0
    ensures var o := Run(g, h, w, LeftOf(p), Repeat("druld", k));
      && o.Done? && o.zero == Pos(p.row + k, p.col - 1)
      && o.grid[p.row + k][p.col] == g[p.row][p.col]
      && SameOutside(g, o.grid, h, w, Box(p.row, p.row + k, p.col - 1, p.col))
  {
    hide RunFrom;
    if k == 0 {
      RunEmpty(g, h, w, LeftOf(p));
    } else {
      DownWalk(g, h, w, p, k - 1);
      var o := Run(g, h, w, LeftOf(p), Repeat("druld", k - 1));
      CycleDown(o.grid, h, w, p.row + (k - 1), p.col - 1);
      var o2 := Run(o.grid, h, w, o.zero, "druld");
      RunThen(g, h, w, LeftOf(p), Repeat("druld", k - 1), o.grid, o.zero, "druld", o2.grid, o2.zero);
      DownJoin(g, o.grid, o2.grid, h, w, p, k);
    }
  }

  /**
   * Round k + 1 of the walk, as the solver performs it: the scan finds the
   * blank where k rounds left it, one more round continues the replay, and
   * the scan then finds the tile one cell further on.
   */
  lemma DownWalkNext(g: Grid, h: int, w: int, p: Pos, k: nat)
    requires IsPermutation(g, h, w) && InGrid(p, h, w) && 1 <= p.col && p.row + (k + 1) < h
    requires g[p.row][p.col - 1] == 0
    ensures var o := Run(g, h, w, LeftOf(p), Repeat("druld", k));
      var o' := Run(g, h, w, LeftOf(p), Repeat("druld", k + 1));
      && o.Done? && o'.Done? && o.zero == Pos(p.row + k, p.col - 1) && o'.zero == Pos(p.row + (k + 1), p.col - 1)
      && Find(o.grid, h, w, 0) == Some(o.zero)
      && Run(o.grid, h, w, o.zero, "druld") == o'
      && Find(o'.grid, h, w, 0) == Some(o'.zero)
      && Find(o'.grid, h, w, g[p.row][p.col]) == Some(Pos(p.row + (k + 1), p.col))
  {
    hide RunFrom;
    DownWalk(g, h, w, p, k);
    DownWalk(g, h, w, p, k + 1);
    LocatedAfter(g, h, w, LeftOf(p), Repeat("druld", k), Pos(p.row + k, p.col), g[p.row][p.col]);
    LocatedAfter(g, h, w, LeftOf(p), Repeat("druld", k + 1), Pos(p.row + (k + 1), p.col), g[p.row][p.col]);
    RunAppend(g, h, w, LeftOf(p), Repeat("druld", k), "druld");
  }

  // ---------------------------------------------------------------------
  // "urrdl" repeated

  /** One more "urrdl" round on top of k - 1 rounds: the tile's value and the frame carry over. */
  lemma RightOverJoin(g: Grid, g1: Grid, g2: Grid, h: int, w: int, p: Pos, k: nat)
    requires Shape(g, h, w) && Shape(g1, h, w) && Shape(g2, h, w)
    requires InGrid(p, h, w) && 1 <= k && 1 <= p.row && 1 <= p.col && p.col + k < w
    requires g1[p.row][p.col + (k - 1)] == g[p.row][p.col]
    requires SameOutside(g, g1, h, w, Box(p.row - 1, p.row, p.col - 1, p.col + (k - 1)))
    requires g2[p.row][p.col + k] == g1[p.row][p.col + (k - 1)]
    requires SameOutside(g1, g2, h, w, Box((p.row) - 1, (p.row), (p.col - 1 + (k - 1)), (p.col - 1 + (k - 1)) + 2))
    ensures g2[p.row][p.col + k] == g[p.row][p.col]
    ensures SameOutside(g, g2, h, w, Box(p.row - 1, p.row, p.col - 1, p.col + k))
  {
  }

  /**
   * k rounds of "urrdl" from the blank immediately left of the tile at p
   * carry the tile k columns right, passing through the row above, keep the blank immediately left of it and
   * change nothing outside the rows and columns they run through.
   */
  lemma {:induction false} RightOverWalk(g: Grid, h: int, w: int, p: Pos, k: nat)
    requires Shape(g, h, w) && InGrid(p, h, w) && 1 <= p.row && 1 <= p.col && p.col + k < w
    requires g[p.row][p.col - 1] == 0
    ensures var o := Run(g, h, w, LeftOf(p), Repeat("urrdl", k));
      && o.Done? && o.zero == Pos(p.row, p.col - 1 + k)
      && o.grid[p.row][p.col + k] == g[p.row][p.col]
      && SameOutside(g, o.grid, h, w, Box(p.row - 1, p.row, p.col - 1, p.col + k))
  {
    hide RunFrom;
    if k == 0 {
      RunEmpty(g, h, w, LeftOf(p));
    } else {
      RightOverWalk(g, h, w, p, k - 1);
      var o := Run(g, h, w, LeftOf(p), Repeat("urrdl", k - 1));
      CycleRightOver(o.grid, h, w, p.row, p.col - 1 + (k - 1));
      var o2 := Run(o.grid, h, w, o.zero, "urrdl");
      RunThen(g, h, w, LeftOf(p), Repeat("urrdl", k - 1), o.grid, o.zero, "urrdl", o2.grid, o2.zero);
      RightOverJoin(g, o.grid, o2.grid, h, w, p, k);
    }
  }

  /**
   * Round k + 1 of the walk, as the solver performs it: the scan finds the
   * blank where k rounds left it, one more round continues the replay, and
   * the scan then finds the tile one cell further on.
   */
  lemma RightOverWalkNext(g: Grid, h: int, w: int, p: Pos, k: nat)
    requires IsPermutation(g, h, w) && InGrid(p, h, w) && 1 <= p.row && 1 <= p.col && p.col + (k + 1) < w
    requires g[p.row][p.col - 1] == 0
    ensures var o := Run(g, h, w, LeftOf(p), Repeat("urrdl", k));
      var o' := Run(g, h, w, LeftOf(p), Repeat("urrdl", k + 1));
      && o.Done? && o'.Done? && o.zero == Pos(p.row, p.col - 1 + k) && o'.zero == Pos(p.row, p.col - 1 + (k + 1))
      && Find(o.grid, h, w, 0) == Some(o.zero)
      && Run(o.grid, h, w, o.zero, "urrdl") == o'
      && Find(o'.grid, h, w, 0) == Some(o'.zero)
      && Find(o'.grid, h, w, g[p.row][p.col]) == Some(Pos(p.row, p.col + (k + 1)))
  {
    hide RunFrom;
    RightOverWalk(g, h, w, p, k);
    RightOverWalk(g, h, w, p, k + 1);
    LocatedAfter(g, h, w, LeftOf(p), Repeat("urrdl", k), Pos(p.row, p.col + k), g[p.row][p.col]);
    LocatedAfter(g, h, w, LeftOf(p), Repeat("urrdl", k + 1), Pos(p.row, p.col + (k + 1)), g[p.row][p.col]);
    RunAppend(g, h, w, LeftOf(p), Repeat("urrdl", k), "urrdl");
  }

  // ---------------------------------------------------------------------
  // "drrul" repeated

  /** One more "drrul" round on top of k - 1 rounds: the tile's value and the frame carry over. */
  lemma RightUnderJoin(g: Grid, g1: Grid, g2: Grid, h: int, w: int, p: Pos, k: nat)
    requires Shape(g, h, w) && Shape(g1, h, w) && Shape(g2, h, w)
    requires InGrid(p, h, w) && 1 <= k && p.row + 1 < h && 1 <= p.col && p.col + k < w
    requires g1[p.row][p.col + (k - 1)] == g[p.row][p.col]
    requires SameOutside(g, g1, h, w, Box(p.row, p.row + 1, p.col - 1, p.col + (k - 1)))
    requires g2[p.row][p.col + k] == g1[p.row][p.col + (k - 1)]
    requires SameOutside(g1, g2, h, w, Box((p.row), (p.row) + 1, (p.col - 1 + (k - 1)), (p.col - 1 + (k - 1)) + 2))
    ensures g2[p.row][p.col + k] == g[p.row][p.col]
    ensures SameOutside(g, g2, h, w, Box(p.row, p.row + 1, p.col - 1, p.col + k))
  {
  }

  /**
   * k rounds of "drrul" from the blank immediately left of the tile at p
   * carry the tile k columns right, passing through the row below, keep the blank immediately left of it and
   * change nothing outside the rows and columns they run through.
   */
  lemma {:induction false} RightUnderWalk(g: Grid, h: int, w: int, p: Pos, k: nat)
    requires Shape(g, h, w) && InGrid(p, h, w) && p.row + 1 < h && 1 <= p.col && p.col + k < w
    requires g[p.row][p.col - 1] == 0
    ensures var o := Run(g, h, w, LeftOf(p), Repeat("drrul", k));
      && o.Done? && o.zero == Pos(p.row, p.col - 1 + k)
      && o.grid[p.row][p.col + k] == g[p.row][p.col]
      && SameOutside(g, o.grid, h, w, Box(p.row, p.row + 1, p.col - 1, p.col + k))
  {
    hide RunFrom;
    if k == 0 {
      RunEmpty(g, h, w, LeftOf(p));
    } else {
      RightUnderWalk(g, h, w, p, k - 1);
      var o := Run(g, h, w, LeftOf(p), Repeat("drrul", k - 1));
      CycleRightUnder(o.grid, h, w, p.row, p.col - 1 + (k - 1));
      var o2 := Run(o.grid, h, w, o.zero, "drrul");
      RunThen(g, h, w, LeftOf(p), Repeat("drrul", k - 1), o.grid, o.zero, "drrul", o2.grid, o2.zero);
      RightUnderJoin(g, o.grid, o2.grid, h, w, p, k);
    }
  }

  /**
   * Round k + 1 of the walk, as the solver performs it: the scan finds the
   * blank where k rounds left it, one more round continues the replay, and
   * the scan then finds the tile one cell further on.
   */
  lemma RightUnderWalkNext(g: Grid, h: int, w: int, p: Pos, k: nat)
    requires IsPermutation(g, h, w) && InGrid(p, h, w) && p.row + 1 < h && 1 <= p.col && p.col + (k + 1) < w
    requires g[p.row][p.col - 1] == 0
    ensures var o := Run(g, h, w, LeftOf(p), Repeat("drrul", k));
      var o' := Run(g, h, w, LeftOf(p), Repeat("drrul", k + 1));
      && o.Done? && o'.Done? && o.zero == Pos(p.row, p.col - 1 + k) && o'.zero == Pos(p.row, p.col - 1 + (k + 1))
      && Find(o.grid, h, w, 0) == Some(o.zero)
      && Run(o.grid, h, w, o.zero, "drrul") == o'
      && Find(o'.grid, h, w, 0) == Some(o'.zero)
      && Find(o'.grid, h, w, g[p.row][p.col]) == Some(Pos(p.row, p.col + (k + 1)))
  {
    hide RunFrom;
    RightUnderWalk(g, h, w, p, k);
    RightUnderWalk(g, h, w, p, k + 1);
    LocatedAfter(g, h, w, LeftOf(p), Repeat("drrul", k), Pos(p.row, p.col + k), g[p.row][p.col]);
    LocatedAfter(g, h, w, LeftOf(p), Repeat("drrul", k + 1), Pos(p.row, p.col + (k + 1)), g[p.row][p.col]);
    RunAppend(g, h, w, LeftOf(p), Repeat("drrul", k), "drrul");
  }

  // ---------------------------------------------------------------------
  // "rulld" repeated

  /** One more "rulld" round on top of k - 1 rounds: the tile's value and the frame carry over. */
  lemma LeftOverJoin(g: Grid, g1: Grid, g2: Grid, h: int, w: int, p: Pos, k: nat)
    requires Shape(g, h, w) && Shape(g1, h, w) && Shape(g2, h, w)
    requires InGrid(p, h, w) && 1 <= k && 1 <= p.row && 1 <= p.col - k
    requires g1[p.row][p.col - (k - 1)] == g[p.row][p.col]
    requires SameOutside(g, g1, h, w, Box(p.row - 1, p.row, p.col - 1 - (k - 1), p.col))
    requires g2[p.row][p.col - k] == g1[p.row][p.col - (k - 1)]
    requires SameOutside(g1, g2, h, w, Box((p.row) - 1, (p.row), (p.col - 1 - (k - 1)) - 1, (p.col - 1 - (k - 1)) + 1))
    ensures g2[p.row][p.col - k] == g[p.row][p.col]
    ensures SameOutside(g, g2, h, w, Box(p.row - 1, p.row, p.col - 1 - k, p.col))
  {
  }

  /**
   * k rounds of "rulld" from the blank immediately left of the tile at p
   * carry the tile k columns left, passing through the row above, keep the blank immediately left of it and
   * change nothing outside the rows and columns they run through.
   */
  lemma {:induction false} LeftOverWalk(g: Grid, h: int, w: int, p: Pos, k: nat)
    requires Shape(g, h, w) && InGrid(p, h, w) && 1 <= p.row && 1 <= p.col - k
    requires g[p.row][p.col - 1] == 0
    ensures var o := Run(g, h, w, LeftOf(p), Repeat("rulld", k));
      && o.Done? && o.zero == Pos(p.row, p.col - 1 - k)
      && o.grid[p.row][p.col - k] == g[p.row][p.col]
      && SameOutside(g, o.grid, h, w, Box(p.row - 1, p.row, p.col - 1 - k, p.col))
  {
    hide RunFrom;
    if k == 0 {
      RunEmpty(g, h, w, LeftOf(p));
    } else {
      LeftOverWalk(g, h, w, p, k - 1);
      var o := Run(g, h, w, LeftOf(p), Repeat("rulld", k - 1));
      CycleLeftOver(o.grid, h, w, p.row, p.col - 1 - (k - 1));
      var o2 := Run(o.grid, h, w, o.zero, "rulld");
      RunThen(g, h, w, LeftOf(p), Repeat("rulld", k - 1), o.grid, o.zero, "rulld", o2.grid, o2.zero);
      LeftOverJoin(g, o.grid, o2.grid, h, w, p, k);
    }
  }

  /**
   * Round k + 1 of the walk, as the solver performs it: the scan finds the
   * blank where k rounds left it, one more round continues the replay, and
   * the scan then finds the tile one cell further on.
   */
  lemma LeftOverWalkNext(g: Grid, h: int, w: int, p: Pos, k: nat)
    requires IsPermutation(g, h, w) && InGrid(p, h, w) && 1 <= p.row && 1 <= p.col - (k + 1)
    requires g[p.row][p.col - 1] == 0
    ensures var o := Run(g, h, w, LeftOf(p), Repeat("rulld", k));
      var o' := Run(g, h, w, LeftOf(p), Repeat("rulld", k + 1));
      && o.Done? && o'.Done? && o.zero == Pos(p.row, p.col - 1 - k) && o'.zero == Pos(p.row, p.col - 1 - (k + 1))
      && Find(o.grid, h, w, 0) == Some(o.zero)
      && Run(o.grid, h, w, o.zero, "rulld") == o'
      && Find(o'.grid, h, w, 0) == Some(o'.zero)
      && Find(o'.grid, h, w, g[p.row][p.col]) == Some(Pos(p.row, p.col - (k + 1)))
  {
    hide RunFrom;
    LeftOverWalk(g, h, w, p, k);
    LeftOverWalk(g, h, w, p, k + 1);
    LocatedAfter(g, h, w, LeftOf(p), Repeat("rulld", k), Pos(p.row, p.col - k), g[p.row][p.col]);
    LocatedAfter(g, h, w, LeftOf(p), Repeat("rulld", k + 1), Pos(p.row, p.col - (k + 1)), g[p.row][p.col]);
    RunAppend(g, h, w, LeftOf(p), Repeat("rulld", k), "rulld");
  }

  // ---------------------------------------------------------------------
  // "rdllu" repeated

  /** One more "rdllu" round on top of k - 1 rounds: the tile's value and the frame carry over. */
  lemma LeftUnderJoin(g: Grid, g1: Grid, g2: Grid, h: int, w: int, p: Pos, k: nat)
    requires Shape(g, h, w) && Shape(g1, h, w) && Shape(g2, h, w)
    requires InGrid(p, h, w) && 1 <= k && p.row + 1 < h && 1 <= p.col - k
    requires g1[p.row][p.col - (k - 1)] == g[p.row][p.col]
    requires SameOutside(g, g1, h, w, Box(p.row, p.row + 1, p.col - 1 - (k - 1), p.col))
    requires g2[p.row][p.col - k] == g1[p.row][p.col - (k - 1)]
    requires SameOutside(g1, g2, h, w, Box((p.row), (p.row) + 1, (p.col - 1 - (k - 1)) - 1, (p.col - 1 - (k - 1)) + 1))
    ensures g2[p.row][p.col - k] == g[p.row][p.col]
    ensures SameOutside(g, g2, h, w, Box(p.row, p.row + 1, p.col - 1 - k, p.col))
  {
  }

  /**
   * k rounds of "rdllu" from the blank immediately left of the tile at p
   * carry the tile k columns left, passing through the row below, keep the blank immediately left of it and
   * change nothing outside the rows and columns they run through.
   */
  lemma {:induction false} LeftUnderWalk(g: Grid, h: int, w: int, p: Pos, k: nat)
    requires Shape(g, h, w) && InGrid(p, h, w) && p.row + 1 < h && 1 <= p.col - k
    requires g[p.row][p.col - 1] == 0
    ensures var o := Run(g, h, w, LeftOf(p), Repeat("rdllu", k));
      && o.Done? && o.zero == Pos(p.row, p.col - 1 - k)
      && o.grid[p.row][p.col - k] == g[p.row][p.col]
      && SameOutside(g, o.grid, h, w, Box(p.row, p.row + 1, p.col - 1 - k, p.col))
  {
    hide RunFrom;
    if k == 0 {
      RunEmpty(g, h, w, LeftOf(p));
    } else {
      LeftUnderWalk(g, h, w, p, k - 1);
      var o := Run(g, h, w, LeftOf(p), Repeat("rdllu", k - 1));
      CycleLeftUnder(o.grid, h, w, p.row, p.col - 1 - (k - 1));
      var o2 := Run(o.grid, h, w, o.zero, "rdllu");
      RunThen(g, h, w, LeftOf(p), Repeat("rdllu", k - 1), o.grid, o.zero, "rdllu", o2.grid, o2.zero);
      LeftUnderJoin(g, o.grid, o2.grid, h, w, p, k);
    }
  }

  /**
   * Round k + 1 of the walk, as the solver performs it: the scan finds the
   * blank where k rounds left it, one more round continues the replay, and
   * the scan then finds the tile one cell further on.
   */
  lemma LeftUnderWalkNext(g: Grid, h: int, w: int, p: Pos, k: nat)
    requires IsPermutation(g, h, w) && InGrid(p, h, w) && p.row + 1 < h && 1 <= p.col - (k + 1)
    requires g[p.row][p.col - 1] == 0
    ensures var o := Run(g, h, w, LeftOf(p), Repeat("rdllu", k));
      var o' := Run(g, h, w, LeftOf(p), Repeat("rdllu", k + 1));
      && o.Done? && o'.Done? && o.zero == Pos(p.row, p.col - 1 - k) && o'.zero == Pos(p.row, p.col - 1 - (k + 1))
      && Find(o.grid, h, w, 0) == Some(o.zero)
      && Run(o.grid, h, w, o.zero, "rdllu") == o'
      && Find(o'.grid, h, w, 0) == Some(o'.zero)
      && Find(o'.grid, h, w, g[p.row][p.col]) == Some(Pos(p.row, p.col - (k + 1)))
  {
    hide RunFrom;
    LeftUnderWalk(g, h, w, p, k);
    LeftUnderWalk(g, h, w, p, k + 1);
    LocatedAfter(g, h, w, LeftOf(p), Repeat("rdllu", k), Pos(p.row, p.col - k), g[p.row][p.col]);
    LocatedAfter(g, h, w, LeftOf(p), Repeat("rdllu", k + 1), Pos(p.row, p.col - (k + 1)), g[p.row][p.col]);
    RunAppend(g, h, w, LeftOf(p), Repeat("rdllu", k), "rdllu");
  }

  // ---------------------------------------------------------------------
  // Whole walks, as the solver's walking methods perform them

  /**
   * Walking the tile at p down to row r: the tile ends at (r, p.col) with
   * the blank immediately left of it, and only the two columns the walk
   * runs in change. A walk of no rounds changes nothing.
   */
  lemma DownWalkDone(g: Grid, h: int, w: int, p: Pos, e: Pos, r: int)
    requires IsPermutation(g, h, w) && InGrid(p, h, w) && InGrid(e, h, w) && g[e.row][e.col] == 0
    requires p.row <= r < h && (p.row < r ==> e == LeftOf(p))
    ensures var o := Run(g, h, w, e, Repeat("druld", r - p.row));
      && o.Done? && IsPermutation(o.grid, h, w) && o.grid[r][p.col] == g[p.row][p.col]
      && InGrid(o.zero, h, w) && o.grid[o.zero.row][o.zero.col] == 0
      && (p.row < r ==> o.zero == Pos(r, p.col - 1))
      && (p.row == r ==> o.zero == e && o.grid == g)
      && SameOutside(g, o.grid, h, w, Box(p.row, r, p.col - 1, p.col))
  {
    hide RunFrom;
    if p.row < r {
      DownWalk(g, h, w, p, r - p.row);
    } else {
      RunEmpty(g, h, w, e);
    }
    RunPreservesPermutation(g, h, w, e, Repeat("druld", r - p.row), 0);
  }

  /** Walking the tile at p right to column c through the row above with "urrdl". */
  lemma RightToWalkDone(g: Grid, h: int, w: int, p: Pos, e: Pos, c: int)
    requires IsPermutation(g, h, w) && InGrid(p, h, w) && InGrid(e, h, w) && g[e.row][e.col] == 0
    requires p.col <= c < w && (p.col < c ==> e == LeftOf(p) && 1 <= p.row)
    ensures var o := Run(g, h, w, e, Repeat("urrdl", c - p.col));
      && o.Done? && IsPermutation(o.grid, h, w) && o.grid[p.row][c] == g[p.row][p.col]
      && InGrid(o.zero, h, w) && o.grid[o.zero.row][o.zero.col] == 0
      && (p.col < c ==> o.zero == Pos(p.row, c - 1))
      && (p.col == c ==> o.zero == e && o.grid == g)
      && SameOutside(g, o.grid, h, w, Box(p.row - 1, p.row, p.col - 1, c))
  {
    hide RunFrom;
    if p.col < c {
      RightOverWalk(g, h, w, p, c - p.col);
    } else {
      RunEmpty(g, h, w, e);
    }
    RunPreservesPermutation(g, h, w, e, Repeat("urrdl", c - p.col), 0);
  }

  /** The macro that carries a tile in row r one column right. */
  function RightMacro(r: int): string {
    if r == 0 then "drrul" else "urrdl"
  }

  /**
   * Walking the tile at p right to column c: through row 1 while the tile
   * is in row 0, through the row above otherwise.
   */
  lemma RightWalkDone(g: Grid, h: int, w: int, p: Pos, e: Pos, c: int)
    requires IsPermutation(g, h, w) && InGrid(p, h, w) && InGrid(e, h, w) && g[e.row][e.col] == 0
    requires p.col <= c < w && (p.col < c ==> e == LeftOf(p) && 2 <= h)
    ensures var o := Run(g, h, w, e, Repeat(RightMacro(p.row), c - p.col));
      && o.Done? && IsPermutation(o.grid, h, w) && o.grid[p.row][c] == g[p.row][p.col]
      && InGrid(o.zero, h, w) && o.grid[o.zero.row][o.zero.col] == 0
      && (p.col < c ==> o.zero == Pos(p.row, c - 1))
      && (p.col == c ==> o.zero == e && o.grid == g)
      && SameOutside(g, o.grid, h, w, Box(Max(p.row - 1, 0), Max(p.row, 1), p.col - 1, c))
  {
    hide RunFrom;
    if p.col == c {
      RunEmpty(g, h, w, e);
    } else if p.row == 0 {
      RightUnderWalk(g, h, w, p, c - p.col);
    } else {
      RightOverWalk(g, h, w, p, c - p.col);
    }
    RunPreservesPermutation(g, h, w, e, Repeat(RightMacro(p.row), c - p.col), 0);
  }

  /** The macro that carries a tile one column left when the blank is in row r. */
  function LeftMacro(r: int): string {
    if r > 0 then "rulld" else "rdllu"
  }

  /**
   * Walking the tile at p left to column c (or not at all when it is
   * already at or left of c): through the row above, or through row 1 when
   * the tile is in row 0.
   */
  lemma LeftWalkDone(g: Grid, h: int, w: int, p: Pos, e: Pos, c: int)
    requires IsPermutation(g, h, w) && InGrid(p, h, w) && InGrid(e, h, w) && g[e.row][e.col] == 0
    requires c < p.col ==> e == LeftOf(p) && 1 <= c && 2 <= h
    ensures var o := Run(g, h, w, e, Repeat(LeftMacro(p.row), p.col - Min(p.col, c)));
      && o.Done? && IsPermutation(o.grid, h, w) && o.grid[p.row][Min(p.col, c)] == g[p.row][p.col]
      && InGrid(o.zero, h, w) && o.grid[o.zero.row][o.zero.col] == 0
      && (c < p.col ==> o.zero == Pos(p.row, c - 1))
      && (p.col <= c ==> o.zero == e && o.grid == g)
      && SameOutside(g, o.grid, h, w, Box(Max(p.row - 1, 0), Max(p.row, 1), c - 1, p.col))
  {
    hide RunFrom;
    if p.col <= c {
      RunEmpty(g, h, w, e);
    } else if p.row > 0 {
      LeftOverWalk(g, h, w, p, p.col - c);
    } else {
      LeftUnderWalk(g, h, w, p, p.col - c);
    }
    RunPreservesPermutation(g, h, w, e, Repeat(LeftMacro(p.row), p.col - Min(p.col, c)), 0);
  }
}
