/**
 * What a move string does to a grid: each of the characters u, d, l, r
 * slides the blank one cell up, down, left or right by exchanging it with
 * the tile there. The replay stops at the first character that is not a
 * direction or that would take the blank off the grid, keeping the effect
 * of the characters before it.
 */
module PuzzleMoves {
  import opened PuzzleGrid

  predicate IsDirection(ch: char) {
    ch == 'u' || ch == 'd' || ch == 'l' || ch == 'r'
  }

  /** All characters of s are directions. */
  predicate IsMoveString(s: string) {
    forall i :: 0 <= i < |s| ==> IsDirection(s[i])
  }

  /** The cell the blank moves to when it takes direction ch from z. */
  function Neighbour(z: Pos, ch: char): Pos {
    if ch == 'u' then Pos(z.row - 1, z.col)
    else if ch == 'd' then Pos(z.row + 1, z.col)
    else if ch == 'l' then Pos(z.row, z.col - 1)
    else Pos(z.row, z.col + 1)
  }

  /**
   * One move as the source performs it: the cell of the blank receives the
   * neighbour's tile and the neighbour's cell receives 0.
   */
  function Slide(g: Grid, h: int, w: int, z: Pos, n: Pos): (g': Grid)
    requires Shape(g, h, w) && InGrid(z, h, w) && InGrid(n, h, w)
    ensures Shape(g', h, w)
  {
    var g1 := g[z.row := g[z.row][z.col := g[n.row][n.col]]];
    g1[n.row := g1[n.row][n.col := 0]]
  }

  /** Exchanges a and b and leaves every other cell coordinate alone. */
  function Swap(a: Pos, b: Pos, q: Pos): Pos {
    if q == a then b else if q == b then a else q
  }

  /**
   * A move from the blank's cell z to an adjacent cell n exchanges the two
   * cells' contents: the blank lands on n, the neighbour's tile on z, and no
   * other cell changes.
   */
  lemma SlideSwaps(g: Grid, h: int, w: int, z: Pos, n: Pos)
    requires Shape(g, h, w) && InGrid(z, h, w) && InGrid(n, h, w) && z != n
    requires g[z.row][z.col] == 0
    ensures var g' := Slide(g, h, w, z, n);
      && g'[n.row][n.col] == 0 && g'[z.row][z.col] == g[n.row][n.col]
      && (forall r, c :: 0 <= r < h && 0 <= c < w ==>
            g'[r][c] == g[Swap(z, n, Pos(r, c)).row][Swap(z, n, Pos(r, c)).col])
      && (forall r, c :: 0 <= r < h && 0 <= c < w && Pos(r, c) != z && Pos(r, c) != n ==>
            g'[r][c] == g[r][c])
  {
  }

  /** A move keeps every value in range. */
  lemma SlideKeepsRange(g: Grid, h: int, w: int, z: Pos, n: Pos)
    requires IsPermutation(g, h, w) && InGrid(z, h, w) && InGrid(n, h, w) && z != n
    requires g[z.row][z.col] == 0
    ensures var g' := Slide(g, h, w, z, n);
      forall r, c :: 0 <= r < h && 0 <= c < w ==> 0 <= g'[r][c] < h * w
  {
    var g' := Slide(g, h, w, z, n);
    SlideSwaps(g, h, w, z, n);
    forall r, c | 0 <= r < h && 0 <= c < w
      ensures 0 <= g'[r][c] < h * w
    {
      var p := Swap(z, n, Pos(r, c));
      assert g'[r][c] == g[p.row][p.col];
    }
  }

  /** A move keeps every value in one cell only. */
  lemma SlideKeepsInjective(g: Grid, h: int, w: int, z: Pos, n: Pos)
    requires IsPermutation(g, h, w) && InGrid(z, h, w) && InGrid(n, h, w) && z != n
    requires g[z.row][z.col] == 0
    ensures var g' := Slide(g, h, w, z, n);
      forall r1, c1, r2, c2 ::
        (0 <= r1 < h && 0 <= c1 < w && 0 <= r2 < h && 0 <= c2 < w && g'[r1][c1] == g'[r2][c2])
        ==> r1 == r2 && c1 == c2
  {
    hide Slide;
    var g' := Slide(g, h, w, z, n);
    SlideSwaps(g, h, w, z, n);
    forall r1, c1, r2, c2 |
      0 <= r1 < h && 0 <= c1 < w && 0 <= r2 < h && 0 <= c2 < w && g'[r1][c1] == g'[r2][c2]
      ensures r1 == r2 && c1 == c2
    {
      var p1, p2 := Swap(z, n, Pos(r1, c1)), Swap(z, n, Pos(r2, c2));
      assert g[p1.row][p1.col] == g[p2.row][p2.col];
    }
  }

  /** A move keeps every value of the range somewhere on the grid. */
  lemma SlideKeepsValues(g: Grid, h: int, w: int, z: Pos, n: Pos)
    requires IsPermutation(g, h, w) && InGrid(z, h, w) && InGrid(n, h, w) && z != n
    requires g[z.row][z.col] == 0
    ensures forall v :: 0 <= v < h * w ==> Holds(Slide(g, h, w, z, n), h, w, v)
  {
    var g' := Slide(g, h, w, z, n);
    SlideSwaps(g, h, w, z, n);
    forall v | 0 <= v < h * w
      ensures Holds(g', h, w, v)
    {
      assert Holds(g, h, w, v);
      var r, c :| 0 <= r < h && 0 <= c < w && g[r][c] == v;
      var q := Swap(z, n, Pos(r, c));
      assert g'[q.row][q.col] == v;
    }
  }

  /** A move keeps the grid a permutation. */
  lemma SlidePreservesPermutation(g: Grid, h: int, w: int, z: Pos, n: Pos)
    requires IsPermutation(g, h, w) && InGrid(z, h, w) && InGrid(n, h, w) && z != n
    requires g[z.row][z.col] == 0
    ensures IsPermutation(Slide(g, h, w, z, n), h, w)
  {
    SlideKeepsRange(g, h, w, z, n);
    SlideKeepsInjective(g, h, w, z, n);
    SlideKeepsValues(g, h, w, z, n);
  }

  datatype Fault = OffGrid | BadDirection

  /**
   * The end of a replay: every character applied, or stopped at character
   * `index` for `fault` with the characters before it applied.
   */
  datatype Replay =
    | Done(grid: Grid, zero: Pos)
    | Stopped(grid: Grid, zero: Pos, index: nat, fault: Fault)

  /** Replays s from character i with the blank at z. */
  function RunFrom(g: Grid, h: int, w: int, z: Pos, s: string, i: nat): (o: Replay)
    requires Shape(g, h, w) && InGrid(z, h, w) && i <= |s|
    decreases |s| - i
    ensures Shape(o.grid, h, w) && InGrid(o.zero, h, w)
    ensures o.Stopped? ==> i <= o.index < |s|
    ensures g[z.row][z.col] == 0 ==> o.grid[o.zero.row][o.zero.col] == 0
  {
    if i == |s| then Done(g, z)
    else if !IsDirection(s[i]) then Stopped(g, z, i, BadDirection)
    else if !InGrid(Neighbour(z, s[i]), h, w) then Stopped(g, z, i, OffGrid)
    else
      var n := Neighbour(z, s[i]);
      RunFrom(Slide(g, h, w, z, n), h, w, n, s, i + 1)
  }

  function Run(g: Grid, h: int, w: int, z: Pos, s: string): Replay
    requires Shape(g, h, w) && InGrid(z, h, w)
  {
    RunFrom(g, h, w, z, s, 0)
  }

  /** A single legal move is the slide to the neighbouring cell. */
  lemma RunOne(g: Grid, h: int, w: int, z: Pos, ch: char)
    requires Shape(g, h, w) && InGrid(z, h, w) && IsDirection(ch) && InGrid(Neighbour(z, ch), h, w)
    ensures Run(g, h, w, z, [ch]) == Done(Slide(g, h, w, z, Neighbour(z, ch)), Neighbour(z, ch))
  {
    var n := Neighbour(z, ch);
    assert [ch][0] == ch;
    assert RunFrom(Slide(g, h, w, z, n), h, w, n, [ch], 1) == Done(Slide(g, h, w, z, n), n);
  }

  /** A legal character replays as its slide followed by the rest of the string. */
  lemma RunFromStep(g: Grid, g': Grid, h: int, w: int, z: Pos, n: Pos, s: string, i: nat)
    requires Shape(g, h, w) && InGrid(z, h, w) && i < |s|
    requires IsDirection(s[i]) && n == Neighbour(z, s[i]) && InGrid(n, h, w)
    requires g' == Slide(g, h, w, z, n)
    ensures RunFrom(g', h, w, n, s, i + 1) == RunFrom(g, h, w, z, s, i)
  {
  }

  /** A replay that starts with the blank in a permutation keeps a permutation. */
  lemma {:induction false} RunPreservesPermutation(g: Grid, h: int, w: int, z: Pos, s: string, i: nat)
    requires IsPermutation(g, h, w) && InGrid(z, h, w) && i <= |s| && g[z.row][z.col] == 0
    decreases |s| - i
    ensures IsPermutation(RunFrom(g, h, w, z, s, i).grid, h, w)
  {
    if i < |s| && IsDirection(s[i]) && InGrid(Neighbour(z, s[i]), h, w) {
      var n := Neighbour(z, s[i]);
      SlideSwaps(g, h, w, z, n);
      SlidePreservesPermutation(g, h, w, z, n);
      RunPreservesPermutation(Slide(g, h, w, z, n), h, w, n, s, i + 1);
    }
  }

  /**
   * A replay that stops at character k has applied exactly s[..k] and stops
   * because s[k] is not a direction or leads off the grid.
   */
  lemma {:induction false} StoppedAfterPrefix(g: Grid, h: int, w: int, z: Pos, s: string, i: nat)
    requires Shape(g, h, w) && InGrid(z, h, w) && i <= |s|
    requires RunFrom(g, h, w, z, s, i).Stopped?
    decreases |s| - i
    ensures var o := RunFrom(g, h, w, z, s, i);
      && RunFrom(g, h, w, z, s[..o.index], i) == Done(o.grid, o.zero)
      && (o.fault == BadDirection <==> !IsDirection(s[o.index]))
      && (o.fault == OffGrid ==> !InGrid(Neighbour(o.zero, s[o.index]), h, w))
  {
    var o := RunFrom(g, h, w, z, s, i);
    if IsDirection(s[i]) && InGrid(Neighbour(z, s[i]), h, w) {
      var n := Neighbour(z, s[i]);
      StoppedAfterPrefix(Slide(g, h, w, z, n), h, w, n, s, i + 1);
      assert s[..o.index][i] == s[i];
    }
  }

  /** Character-for-character statement of StoppedAfterPrefix for a whole replay. */
  lemma RunStopsAtFirstIllegal(g: Grid, h: int, w: int, z: Pos, s: string)
    requires Shape(g, h, w) && InGrid(z, h, w) && Run(g, h, w, z, s).Stopped?
    ensures var o := Run(g, h, w, z, s);
      && o.index < |s| && Run(g, h, w, z, s[..o.index]) == Done(o.grid, o.zero)
      && (o.fault == BadDirection <==> !IsDirection(s[o.index]))
      && (o.fault == OffGrid ==> !InGrid(Neighbour(o.zero, s[o.index]), h, w))
  {
    StoppedAfterPrefix(g, h, w, z, s, 0);
  }

  // ---------------------------------------------------------------------
  // Composition

  function Shift(o: Replay, k: nat): Replay {
    match o
    case Done(_, _) => o
    case Stopped(g, z, i, f) => Stopped(g, z, i + k, f)
  }

  lemma {:induction false} RunSuffix(g: Grid, h: int, w: int, z: Pos, a: string, b: string, j: nat)
    requires Shape(g, h, w) && InGrid(z, h, w) && j <= |b|
    decreases |b| - j
    ensures RunFrom(g, h, w, z, a + b, |a| + j) == Shift(RunFrom(g, h, w, z, b, j), |a|)
  {
    if j < |b| {
      assert (a + b)[|a| + j] == b[j];
      if IsDirection(b[j]) && InGrid(Neighbour(z, b[j]), h, w) {
        var n := Neighbour(z, b[j]);
        RunSuffix(Slide(g, h, w, z, n), h, w, n, a, b, j + 1);
      }
    }
  }

  lemma {:induction false} RunPrefix(g: Grid, h: int, w: int, z: Pos, a: string, b: string, i: nat)
    requires Shape(g, h, w) && InGrid(z, h, w) && i <= |a|
    requires RunFrom(g, h, w, z, a, i).Done?
    decreases |a| - i
    ensures var o := RunFrom(g, h, w, z, a, i);
      RunFrom(g, h, w, z, a + b, i) == RunFrom(o.grid, h, w, o.zero, a + b, |a|)
  {
    if i < |a| {
      assert (a + b)[i] == a[i];
      var n := Neighbour(z, a[i]);
      RunPrefix(Slide(g, h, w, z, n), h, w, n, a, b, i + 1);
    }
  }

  /** Replaying a + b is replaying a, then b from where a left the blank. */
  lemma RunAppend(g: Grid, h: int, w: int, z: Pos, a: string, b: string)
    requires Shape(g, h, w) && InGrid(z, h, w) && Run(g, h, w, z, a).Done?
    ensures var o := Run(g, h, w, z, a);
      Run(g, h, w, z, a + b) == Shift(Run(o.grid, h, w, o.zero, b), |a|)
  {
    var o := Run(g, h, w, z, a);
    RunPrefix(g, h, w, z, a, b, 0);
    RunSuffix(o.grid, h, w, o.zero, a, b, 0);
  }

  /** Two completed replays chain into one completed replay of the concatenation. */
  lemma RunThen(g: Grid, h: int, w: int, z: Pos, a: string, g1: Grid, z1: Pos, b: string, g2: Grid, z2: Pos)
    requires Shape(g, h, w) && InGrid(z, h, w)
    requires Run(g, h, w, z, a) == Done(g1, z1) && Shape(g1, h, w) && InGrid(z1, h, w)
    requires Run(g1, h, w, z1, b) == Done(g2, z2)
    ensures Run(g, h, w, z, a + b) == Done(g2, z2)
  {
    RunAppend(g, h, w, z, a, b);
  }

  /** A replay of a that stops is not rescued by what follows a: it stops at the same character. */
  lemma {:induction false} StoppedPrefix(g: Grid, h: int, w: int, z: Pos, a: string, b: string, i: nat)
    requires Shape(g, h, w) && InGrid(z, h, w) && i <= |a|
    requires RunFrom(g, h, w, z, a, i).Stopped?
    decreases |a| - i
    ensures RunFrom(g, h, w, z, a + b, i) == RunFrom(g, h, w, z, a, i)
  {
    assert (a + b)[i] == a[i];
    if IsDirection(a[i]) && InGrid(Neighbour(z, a[i]), h, w) {
      var n := Neighbour(z, a[i]);
      StoppedPrefix(Slide(g, h, w, z, n), h, w, n, a, b, i + 1);
    }
  }

  /**
   * A completed replay of a + b passes through a completed replay of a,
   * from whose end b replays the rest.
   */
  lemma RunSplit(g: Grid, h: int, w: int, z: Pos, a: string, b: string)
    requires Shape(g, h, w) && InGrid(z, h, w) && Run(g, h, w, z, a + b).Done?
    ensures var o := Run(g, h, w, z, a);
      o.Done? && Run(o.grid, h, w, o.zero, b) == Run(g, h, w, z, a + b)
  {
    if Run(g, h, w, z, a).Stopped? {
      StoppedPrefix(g, h, w, z, a, b, 0);
      assert false;
    }
    RunAppend(g, h, w, z, a, b);
  }

  // ---------------------------------------------------------------------
  // Tracking tiles by position only

  /** Where the blank ends after replaying s from character i. */
  function EndFrom(z: Pos, s: string, i: nat): Pos
    decreases |s| - i
  {
    if i >= |s| then z else EndFrom(Neighbour(z, s[i]), s, i + 1)
  }

  /** The cell whose tile ends at p after replaying s from character i. */
  function SrcFrom(z: Pos, s: string, i: nat, p: Pos): Pos
    decreases |s| - i
  {
    if i >= |s| then p else Swap(z, Neighbour(z, s[i]), SrcFrom(Neighbour(z, s[i]), s, i + 1, p))
  }

  /** From character |a| on, a + b moves the blank and the tiles as b does. */
  lemma {:induction false} PathSuffix(z: Pos, a: string, b: string, j: nat, p: Pos, box: Box)
    requires j <= |b|
    decreases |b| - j
    ensures EndFrom(z, a + b, |a| + j) == EndFrom(z, b, j)
    ensures SrcFrom(z, a + b, |a| + j, p) == SrcFrom(z, b, j, p)
    ensures TraceWithin(z, a + b, |a| + j, box) == TraceWithin(z, b, j, box)
  {
    if j < |b| {
      assert (a + b)[|a| + j] == b[j];
      PathSuffix(Neighbour(z, b[j]), a, b, j + 1, p, box);
    }
  }

  /**
   * The blank's path under a + b is its path under a followed by its path
   * under b: the end positions, the tile sources and the box discipline
   * compose.
   */
  lemma {:induction false} PathAppend(z: Pos, a: string, b: string, i: nat, p: Pos, box: Box)
    requires i <= |a|
    decreases |a| - i
    ensures EndFrom(z, a + b, i) == EndFrom(EndFrom(z, a, i), b, 0)
    ensures SrcFrom(z, a + b, i, p) == SrcFrom(z, a, i, SrcFrom(EndFrom(z, a, i), b, 0, p))
    ensures TraceWithin(z, a, i, box) && TraceWithin(EndFrom(z, a, i), b, 0, box)
      ==> TraceWithin(z, a + b, i, box)
  {
    if i < |a| {
      assert (a + b)[i] == a[i];
      PathAppend(Neighbour(z, a[i]), a, b, i + 1, p, box);
    } else {
      PathSuffix(z, a, b, 0, p, box);
    }
  }

  /** A rectangle of cells, bounds inclusive. */
  datatype Box = Box(top: int, bottom: int, left: int, right: int)

  predicate InBox(b: Box, r: int, c: int) {
    b.top <= r <= b.bottom && b.left <= c <= b.right
  }

  predicate BoxInGrid(b: Box, h: int, w: int) {
    0 <= b.top && b.bottom < h && 0 <= b.left && b.right < w
  }

  /** From character i on, s is made of directions and the blank never leaves b. */
  predicate TraceWithin(z: Pos, s: string, i: nat, b: Box)
    decreases |s| - i
  {
    InBox(b, z.row, z.col)
    && (i < |s| ==> IsDirection(s[i]) && TraceWithin(Neighbour(z, s[i]), s, i + 1, b))
  }

  /** Cells outside b are equal in g and g'. */
  predicate SameOutside(g: Grid, g': Grid, h: int, w: int, b: Box)
    requires Shape(g, h, w) && Shape(g', h, w)
  {
    forall r, c :: 0 <= r < h && 0 <= c < w && !InBox(b, r, c) ==> g'[r][c] == g[r][c]
  }

  /** Every cell of g' holds the tile that sat at SrcFrom(z, s, i, ·) in g. */
  ghost predicate Tracks(g: Grid, g': Grid, h: int, w: int, z: Pos, s: string, i: nat)
    requires Shape(g, h, w) && Shape(g', h, w)
  {
    forall r, c :: 0 <= r < h && 0 <= c < w ==>
      InGrid(SrcFrom(z, s, i, Pos(r, c)), h, w)
      && g'[r][c] == g[SrcFrom(z, s, i, Pos(r, c)).row][SrcFrom(z, s, i, Pos(r, c)).col]
  }

  /** One slide in front of a tracked replay gives a tracked replay. */
  lemma TracksStep(g: Grid, g2: Grid, h: int, w: int, z: Pos, n: Pos, s: string, i: nat)
    requires Shape(g, h, w) && Shape(g2, h, w) && InGrid(z, h, w) && i < |s|
    requires n == Neighbour(z, s[i]) && InGrid(n, h, w) && z != n && g[z.row][z.col] == 0
    requires Tracks(Slide(g, h, w, z, n), g2, h, w, n, s, i + 1)
    ensures Tracks(g, g2, h, w, z, s, i)
  {
    var g1 := Slide(g, h, w, z, n);
    SlideSwaps(g, h, w, z, n);
    forall r, c | 0 <= r < h && 0 <= c < w
      ensures InGrid(SrcFrom(z, s, i, Pos(r, c)), h, w)
      ensures g2[r][c] == g[SrcFrom(z, s, i, Pos(r, c)).row][SrcFrom(z, s, i, Pos(r, c)).col]
    {
      var q := SrcFrom(n, s, i + 1, Pos(r, c));
      assert SrcFrom(z, s, i, Pos(r, c)) == Swap(z, n, q);
      assert g2[r][c] == g1[q.row][q.col];
    }
  }

  /** A replay whose blank stays inside a box of the grid completes where the positions say. */
  lemma {:induction false} RunWithinDone(g: Grid, h: int, w: int, z: Pos, s: string, i: nat, b: Box)
    requires Shape(g, h, w) && InGrid(z, h, w) && i <= |s|
    requires BoxInGrid(b, h, w) && TraceWithin(z, s, i, b)
    decreases |s| - i
    ensures RunFrom(g, h, w, z, s, i) == Done(RunFrom(g, h, w, z, s, i).grid, EndFrom(z, s, i))
  {
    if i < |s| {
      var n := Neighbour(z, s[i]);
      assert IsDirection(s[i]) && TraceWithin(n, s, i + 1, b);
      RunWithinDone(Slide(g, h, w, z, n), h, w, n, s, i + 1, b);
    }
  }

  /** ... and moves the tile from SrcFrom(p) to p. */
  lemma {:induction false} RunWithinTracks(g: Grid, h: int, w: int, z: Pos, s: string, i: nat, b: Box)
    requires Shape(g, h, w) && InGrid(z, h, w) && i <= |s| && g[z.row][z.col] == 0
    requires BoxInGrid(b, h, w) && TraceWithin(z, s, i, b)
    decreases |s| - i
    ensures Tracks(g, RunFrom(g, h, w, z, s, i).grid, h, w, z, s, i)
  {
    if i == |s| {
      forall r, c | 0 <= r < h && 0 <= c < w
        ensures SrcFrom(z, s, i, Pos(r, c)) == Pos(r, c)
      {
      }
    } else {
      var n := Neighbour(z, s[i]);
      assert IsDirection(s[i]) && TraceWithin(n, s, i + 1, b);
      var g1 := Slide(g, h, w, z, n);
      assert g1[n.row][n.col] == 0;
      RunWithinTracks(g1, h, w, n, s, i + 1, b);
      TracksStep(g, RunFrom(g1, h, w, n, s, i + 1).grid, h, w, z, n, s, i);
    }
  }

  /** ... and changes nothing outside the box. */
  lemma {:induction false} RunWithinOutside(g: Grid, h: int, w: int, z: Pos, s: string, i: nat, b: Box)
    requires Shape(g, h, w) && InGrid(z, h, w) && i <= |s|
    requires BoxInGrid(b, h, w) && TraceWithin(z, s, i, b)
    decreases |s| - i
    ensures SameOutside(g, RunFrom(g, h, w, z, s, i).grid, h, w, b)
  {
    if i < |s| {
      var n := Neighbour(z, s[i]);
      assert IsDirection(s[i]) && TraceWithin(n, s, i + 1, b);
      var g1 := Slide(g, h, w, z, n);
      RunWithinOutside(g1, h, w, n, s, i + 1, b);
      var g2 := RunFrom(g1, h, w, n, s, i + 1).grid;
      forall r, c | 0 <= r < h && 0 <= c < w && !InBox(b, r, c)
        ensures g2[r][c] == g[r][c]
      {
        assert g2[r][c] == g1[r][c];
      }
    }
  }

  lemma RunWithin(g: Grid, h: int, w: int, z: Pos, s: string, b: Box)
    requires Shape(g, h, w) && InGrid(z, h, w) && g[z.row][z.col] == 0
    requires BoxInGrid(b, h, w) && TraceWithin(z, s, 0, b)
    ensures var o := Run(g, h, w, z, s);
      && o.Done? && o.zero == EndFrom(z, s, 0)
      && Tracks(g, o.grid, h, w, z, s, 0)
      && SameOutside(g, o.grid, h, w, b)
  {
    RunWithinDone(g, h, w, z, s, 0, b);
    RunWithinTracks(g, h, w, z, s, 0, b);
    RunWithinOutside(g, h, w, z, s, 0, b);
  }
}
