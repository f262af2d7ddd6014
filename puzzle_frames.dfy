/**
 * Which cells a phase of the solver leaves alone. A phase that places the
 * tile for cell p must not disturb the cells after p in row-major order,
 * and the phases of the top two rows must not disturb the columns to the
 * right of the one they work on.
 */
module PuzzleFrames {
  import opened PuzzleGrid
  import opened PuzzleMoves

  /** Every cell strictly after p in row-major order is the same in g and g'. */
  predicate FixedAfter(g: Grid, g': Grid, h: int, w: int, p: Pos)
    requires Shape(g, h, w) && Shape(g', h, w)
  {
    forall r, c :: 0 <= r < h && 0 <= c < w && Before(p, Pos(r, c)) ==> g'[r][c] == g[r][c]
  }

  /** Every cell in a column to the right of k is the same in g and g'. */
  predicate FixedRightOf(g: Grid, g': Grid, h: int, w: int, k: int)
    requires Shape(g, h, w) && Shape(g', h, w)
  {
    forall r, c :: 0 <= r < h && 0 <= c < w && k < c ==> g'[r][c] == g[r][c]
  }

  function Max(a: int, b: int): int { if a < b then b else a }
  function Min(a: int, b: int): int { if a < b then a else b }

  /** A change confined to a box leaves what lies after its last cell and right of its last column. */
  lemma BoxFixes(g: Grid, g': Grid, h: int, w: int, b: Box)
    requires Shape(g, h, w) && Shape(g', h, w) && SameOutside(g, g', h, w, b)
    ensures FixedAfter(g, g', h, w, Pos(b.bottom, b.right))
    ensures FixedRightOf(g, g', h, w, b.right)
  {
  }

  /** Two changes, each confined to a box inside B, are together confined to B. */
  lemma SameOutsideJoin(g0: Grid, g1: Grid, g2: Grid, h: int, w: int, b1: Box, b2: Box, b: Box)
    requires Shape(g0, h, w) && Shape(g1, h, w) && Shape(g2, h, w)
    requires SameOutside(g0, g1, h, w, b1) && SameOutside(g1, g2, h, w, b2)
    requires b.top <= b1.top && b1.bottom <= b.bottom && b.left <= b1.left && b1.right <= b.right
    requires b.top <= b2.top && b2.bottom <= b.bottom && b.left <= b2.left && b2.right <= b.right
    ensures SameOutside(g0, g2, h, w, b)
  {
  }

  /** FixedAfter composes along a sequence of grids, keeping the later of the two cells. */
  lemma FixedAfterChain(g0: Grid, g1: Grid, g2: Grid, h: int, w: int, p1: Pos, p2: Pos, p: Pos)
    requires Shape(g0, h, w) && Shape(g1, h, w) && Shape(g2, h, w)
    requires FixedAfter(g0, g1, h, w, p1) && FixedAfter(g1, g2, h, w, p2)
    requires !Before(p, p1) && !Before(p, p2)
    ensures FixedAfter(g0, g2, h, w, p)
  {
  }

  lemma FixedRightOfChain(g0: Grid, g1: Grid, g2: Grid, h: int, w: int, k1: int, k2: int, k: int)
    requires Shape(g0, h, w) && Shape(g1, h, w) && Shape(g2, h, w)
    requires FixedRightOf(g0, g1, h, w, k1) && FixedRightOf(g1, g2, h, w, k2)
    requires k1 <= k && k2 <= k
    ensures FixedRightOf(g0, g2, h, w, k)
  {
  }

  /**
   * The cells the blank may visit while it walks from Z towards the target
   * tile's cell T: up first, then across, never re-entering Z's row unless
   * T shares it.
   */
  predicate InApproach(t: Pos, z: Pos, q: Pos) {
    && t.row <= q.row <= z.row
    && Min(t.col, z.col) <= q.col <= Max(t.col, z.col)
    && (q.row == z.row ==> q == z || t.row == z.row)
  }

  /** A change confined to the approach region leaves everything after Z and right of both columns. */
  lemma ApproachFixes(g: Grid, g': Grid, h: int, w: int, t: Pos, z: Pos)
    requires Shape(g, h, w) && Shape(g', h, w) && Before(t, z)
    requires forall r, c :: 0 <= r < h && 0 <= c < w && g'[r][c] != g[r][c] ==> InApproach(t, z, Pos(r, c))
    ensures FixedAfter(g, g', h, w, z)
    ensures FixedRightOf(g, g', h, w, Max(t.col, z.col))
  {
  }

  /** In a permutation the blank and every tile are found where they are. */
  lemma Located(g: Grid, h: int, w: int, p: Pos, v: int)
    requires IsPermutation(g, h, w) && InGrid(p, h, w) && g[p.row][p.col] == v
    ensures Find(g, h, w, v) == Some(p)
  {
    FindInPermutation(g, h, w, p);
  }

  /**
   * A completed replay from the blank's cell in a permutation ends in a
   * permutation whose blank is where the replay left it.
   */
  lemma Replayed(g: Grid, h: int, w: int, z: Pos, s: string)
    requires IsPermutation(g, h, w) && InGrid(z, h, w) && g[z.row][z.col] == 0
    requires Run(g, h, w, z, s).Done?
    ensures Find(g, h, w, 0) == Some(z)
    ensures var o := Run(g, h, w, z, s);
      IsPermutation(o.grid, h, w) && o.grid[o.zero.row][o.zero.col] == 0
  {
    FindInPermutation(g, h, w, z);
    RunPreservesPermutation(g, h, w, z, s, 0);
  }

  /**
   * A completed replay of a + b from the blank's cell in a permutation
   * splits into two: a completes with the blank found where it left it, and
   * b, replayed from there, ends where a + b does. An empty part changes
   * nothing.
   */
  lemma ReplayedSplit(g: Grid, h: int, w: int, z: Pos, a: string, b: string)
    requires IsPermutation(g, h, w) && InGrid(z, h, w) && g[z.row][z.col] == 0
    requires Run(g, h, w, z, a + b).Done?
    ensures Find(g, h, w, 0) == Some(z)
    ensures var o := Run(g, h, w, z, a);
      && o.Done? && Find(o.grid, h, w, 0) == Some(o.zero)
      && Run(o.grid, h, w, o.zero, b) == Run(g, h, w, z, a + b)
      && (a == [] ==> o == Done(g, z))
      && (b == [] ==> Run(g, h, w, z, a + b) == o)
  {
    var o := Run(g, h, w, z, a);
    RunSplit(g, h, w, z, a, b);
    FindInPermutation(g, h, w, z);
    RunPreservesPermutation(g, h, w, z, a, 0);
    FindInPermutation(o.grid, h, w, o.zero);
    if b == [] {
      assert a + b == a;
    }
  }

  /** One legal move from the blank's cell in a permutation. */
  lemma Stepped(g: Grid, h: int, w: int, z: Pos, ch: char)
    requires IsPermutation(g, h, w) && InGrid(z, h, w) && g[z.row][z.col] == 0
    requires IsDirection(ch) && InGrid(Neighbour(z, ch), h, w)
    ensures Find(g, h, w, 0) == Some(z)
    ensures var n := Neighbour(z, ch); var g' := Slide(g, h, w, z, n);
      && Run(g, h, w, z, [ch]) == Done(g', n)
      && IsPermutation(g', h, w) && g'[n.row][n.col] == 0 && g'[z.row][z.col] == g[n.row][n.col]
      && (forall r, c :: 0 <= r < h && 0 <= c < w && Pos(r, c) != z && Pos(r, c) != n ==>
            g'[r][c] == g[r][c])
  {
    var n := Neighbour(z, ch);
    FindInPermutation(g, h, w, z);
    RunOne(g, h, w, z, ch);
    SlideSwaps(g, h, w, z, n);
    SlidePreservesPermutation(g, h, w, z, n);
  }
}
