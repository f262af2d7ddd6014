/**
 * Where the solver's record of its moves, and its phase checks, fall short
 * of what the phases need, each shown on a concrete board beside the
 * behaviour the rest of the model uses instead.
 */
module PuzzleFindings {
  import opened PuzzleGrid
  import opened PuzzleMoves
  import opened PuzzleFrames
  import opened PuzzleMacros
  import opened PuzzleWalks

  // ---------------------------------------------------------------------
  // The leftward walk's record

  /**
   * What one round of the leftward walk appends to its result as written:
   * "ldrul" where it applies "rulld", "rdllu" where it applies "rdllu".
   */
  function LeftRecorded(zeroRow: int): (s: string)
    ensures |s| == |LeftMacro(zeroRow)|
    ensures s == LeftMacro(zeroRow) <==> zeroRow <= 0
  {
    if zeroRow > 0 then "ldrul" else "rdllu"
  }

  /** Where the blank goes and where tiles come from under "ldrul". */
  lemma LeftRecordedPath(x: int, y: int)
    ensures TraceWithin(Pos(x, y), "ldrul", 0, Box(x, x + 1, y - 1, y))
    ensures EndFrom(Pos(x, y), "ldrul", 0) == Pos(x, y - 1)
  {
  }

  /**
   * Replayed from the blank immediately left of the tile, the recorded
   * "ldrul" only turns the 2x2 square below-left of the tile: the tile stays
   * where it was, while the applied "rulld" moves it one column left.
   */
  lemma LeftRecordedKeepsTile(g: Grid, h: int, w: int, x: int, y: int)
    requires Shape(g, h, w) && 0 <= x && x + 1 < h && 1 <= y && y + 1 < w
    requires g[x][y] == 0
    ensures var o := Run(g, h, w, Pos(x, y), LeftRecorded(x + 1));
      o.Done? && o.zero == Pos(x, y - 1) && o.grid[x][y + 1] == g[x][y + 1]
  {
    LeftRecordedPath(x, y);
    RunWithin(g, h, w, Pos(x, y), "ldrul", Box(x, x + 1, y - 1, y));
  }

  /**
   * In the last row the recorded "ldrul" cannot be replayed at all: its
   * second move takes the blank off the grid.
   */
  lemma LeftRecordedStops(g: Grid, h: int, w: int, y: int)
    requires Shape(g, h, w) && 2 <= h && 1 <= y < w
    ensures var o := Run(g, h, w, Pos(h - 1, y), LeftRecorded(h - 1));
      o.Stopped? && o.index == 1 && o.fault == OffGrid
  {
    var s := LeftRecorded(h - 1);
    assert s == "ldrul";
    var n := Pos(h - 1, y - 1);
    assert Run(g, h, w, Pos(h - 1, y), s) == RunFrom(Slide(g, h, w, Pos(h - 1, y), n), h, w, n, s, 1);
  }

  /**
   * The 2x3 board [[1, 2, 3], [5, 0, 4]] with the tile for (1, 1) at (1, 2):
   * the applied "rulld" brings it home with the blank on its left, but
   * replaying the recorded string stops at its second move.
   */
  lemma LeftRecordedExample()
    ensures var o := Run([[1, 2, 3], [5, 0, 4]], 2, 3, Pos(1, 1), LeftMacro(1));
      o.Done? && o.zero == Pos(1, 0) && o.grid[1][1] == 4
    ensures Run([[1, 2, 3], [5, 0, 4]], 2, 3, Pos(1, 1), LeftRecorded(1)).Stopped?
  {
    var g: Grid := [[1, 2, 3], [5, 0, 4]];
    LeftRecordedStops(g, 2, 3, 1);
    assert LeftMacro(1) == "rulld";
    CycleLeftOver(g, 2, 3, 1, 1);
  }

  // ---------------------------------------------------------------------
  // The row-1 and row-0 checks

  /**
   * The 2x4 board [[1, 2, 4, 6], [3, 5, 0, 7]] passes the row-1 check at
   * column 2, yet the tile for (1, 2) lies in row 0 right of that column,
   * out of reach of the row-1 phase's down and right walks; the check the
   * phase needs also asks row 0 to be solved right of the column.
   */
  lemma Row1CheckAdmits()
    ensures var g: Grid := [[1, 2, 4, 6], [3, 5, 0, 7]];
      && IsPermutation(g, 2, 4) && Row1Invariant(g, 2, 4, 2) && !Row1Ready(g, 2, 4, 2)
      && Find(g, 2, 4, SolvedValue(4, 1, 2)) == Some(Pos(0, 3))
  {
    var g: Grid := [[1, 2, 4, 6], [3, 5, 0, 7]];
    PermutationByTable(g, 2, 4, [Pos(1, 2), Pos(0, 0), Pos(0, 1), Pos(1, 0), Pos(0, 2), Pos(1, 1), Pos(0, 3), Pos(1, 3)]);
    FindInPermutation(g, 2, 4, Pos(1, 2));
    FindInPermutation(g, 2, 4, Pos(0, 3));
  }

  /**
   * The 2x4 board [[1, 3, 0, 2], [4, 5, 6, 7]] passes the row-0 check at
   * column 2, yet the tile for (0, 2) lies right of that column, where the
   * row-0 phase's walks never look; the check the phase needs also asks
   * row 0 to be solved right of the column.
   */
  lemma Row0CheckAdmits()
    ensures var g: Grid := [[1, 3, 0, 2], [4, 5, 6, 7]];
      && IsPermutation(g, 2, 4) && Row0Invariant(g, 2, 4, 2) && !Row0Ready(g, 2, 4, 2)
      && Find(g, 2, 4, SolvedValue(4, 0, 2)) == Some(Pos(0, 3))
  {
    var g: Grid := [[1, 3, 0, 2], [4, 5, 6, 7]];
    PermutationByTable(g, 2, 4, [Pos(0, 2), Pos(0, 0), Pos(0, 3), Pos(0, 1), Pos(1, 0), Pos(1, 1), Pos(1, 2), Pos(1, 3)]);
    FindInPermutation(g, 2, 4, Pos(0, 2));
    FindInPermutation(g, 2, 4, Pos(0, 3));
  }

  /**
   * The approach from (1, 2) to the tile at (0, 3): "ur" ends the loop, since the blank reaches the
   * tile's old cell, and "l" goes round to its left.
   */
  lemma Row1PhaseStopsMovesPart1()
    ensures Run([[1, 2, 4, 6], [3, 5, 0, 7]], 2, 4, Pos(1, 2), "url")
         == Done([[1, 2, 0, 6], [3, 5, 4, 7]], Pos(0, 2))
  {
    hide Run, RunFrom;
    var g0: Grid := [[1, 2, 4, 6], [3, 5, 0, 7]];
    var g1: Grid := [[1, 2, 0, 6], [3, 5, 4, 7]];
    var g2: Grid := [[1, 2, 6, 0], [3, 5, 4, 7]];
    var g3: Grid := [[1, 2, 0, 6], [3, 5, 4, 7]];
    assert Run(g0, 2, 4, Pos(1, 2), "u") == Done(g1, Pos(0, 2)) by {
      RunOne(g0, 2, 4, Pos(1, 2), 'u');
      var s := Slide(g0, 2, 4, Pos(1, 2), Pos(0, 2));
      assert s[0] == g1[0];
      assert s[1] == g1[1];
    }
    assert Run(g1, 2, 4, Pos(0, 2), "r") == Done(g2, Pos(0, 3)) by {
      RunOne(g1, 2, 4, Pos(0, 2), 'r');
      var s := Slide(g1, 2, 4, Pos(0, 2), Pos(0, 3));
      assert s[0] == g2[0];
      assert s[1] == g2[1];
    }
    RunThen(g0, 2, 4, Pos(1, 2), "u", g1, Pos(0, 2), "r", g2, Pos(0, 3));
    assert "u" + "r" == "ur";
    assert Run(g2, 2, 4, Pos(0, 3), "l") == Done(g3, Pos(0, 2)) by {
      RunOne(g2, 2, 4, Pos(0, 3), 'l');
      var s := Slide(g2, 2, 4, Pos(0, 3), Pos(0, 2));
      assert s[0] == g3[0];
      assert s[1] == g3[1];
    }
    RunThen(g0, 2, 4, Pos(1, 2), "ur", g2, Pos(0, 3), "l", g3, Pos(0, 2));
    assert "ur" + "l" == "url";
  }

  /** The first three moves of the downward walk's "druld", which bring the tile down to (1, 3). */
  lemma Row1PhaseStopsMovesPart2()
    ensures Run([[1, 2, 0, 6], [3, 5, 4, 7]], 2, 4, Pos(0, 2), "dru")
         == Done([[1, 2, 4, 0], [3, 5, 7, 6]], Pos(0, 3))
  {
    hide Run, RunFrom;
    var g0: Grid := [[1, 2, 0, 6], [3, 5, 4, 7]];
    var g1: Grid := [[1, 2, 4, 6], [3, 5, 0, 7]];
    var g2: Grid := [[1, 2, 4, 6], [3, 5, 7, 0]];
    var g3: Grid := [[1, 2, 4, 0], [3, 5, 7, 6]];
    assert Run(g0, 2, 4, Pos(0, 2), "d") == Done(g1, Pos(1, 2)) by {
      RunOne(g0, 2, 4, Pos(0, 2), 'd');
      var s := Slide(g0, 2, 4, Pos(0, 2), Pos(1, 2));
      assert s[0] == g1[0];
      assert s[1] == g1[1];
    }
    assert Run(g1, 2, 4, Pos(1, 2), "r") == Done(g2, Pos(1, 3)) by {
      RunOne(g1, 2, 4, Pos(1, 2), 'r');
      var s := Slide(g1, 2, 4, Pos(1, 2), Pos(1, 3));
      assert s[0] == g2[0];
      assert s[1] == g2[1];
    }
    RunThen(g0, 2, 4, Pos(0, 2), "d", g1, Pos(1, 2), "r", g2, Pos(1, 3));
    assert "d" + "r" == "dr";
    assert Run(g2, 2, 4, Pos(1, 3), "u") == Done(g3, Pos(0, 3)) by {
      RunOne(g2, 2, 4, Pos(1, 3), 'u');
      var s := Slide(g2, 2, 4, Pos(1, 3), Pos(0, 3));
      assert s[0] == g3[0];
      assert s[1] == g3[1];
    }
    RunThen(g0, 2, 4, Pos(0, 2), "dr", g2, Pos(1, 3), "u", g3, Pos(0, 3));
    assert "dr" + "u" == "dru";
  }

  /** The rest of that "druld", and the first move of the rightward walk's "urrdl". */
  lemma Row1PhaseStopsMovesPart3()
    ensures Run([[1, 2, 4, 0], [3, 5, 7, 6]], 2, 4, Pos(0, 3), "ldu")
         == Done([[1, 2, 0, 4], [3, 5, 7, 6]], Pos(0, 2))
  {
    hide Run, RunFrom;
    var g0: Grid := [[1, 2, 4, 0], [3, 5, 7, 6]];
    var g1: Grid := [[1, 2, 0, 4], [3, 5, 7, 6]];
    var g2: Grid := [[1, 2, 7, 4], [3, 5, 0, 6]];
    var g3: Grid := [[1, 2, 0, 4], [3, 5, 7, 6]];
    assert Run(g0, 2, 4, Pos(0, 3), "l") == Done(g1, Pos(0, 2)) by {
      RunOne(g0, 2, 4, Pos(0, 3), 'l');
      var s := Slide(g0, 2, 4, Pos(0, 3), Pos(0, 2));
      assert s[0] == g1[0];
      assert s[1] == g1[1];
    }
    assert Run(g1, 2, 4, Pos(0, 2), "d") == Done(g2, Pos(1, 2)) by {
      RunOne(g1, 2, 4, Pos(0, 2), 'd');
      var s := Slide(g1, 2, 4, Pos(0, 2), Pos(1, 2));
      assert s[0] == g2[0];
      assert s[1] == g2[1];
    }
    RunThen(g0, 2, 4, Pos(0, 3), "l", g1, Pos(0, 2), "d", g2, Pos(1, 2));
    assert "l" + "d" == "ld";
    assert Run(g2, 2, 4, Pos(1, 2), "u") == Done(g3, Pos(0, 2)) by {
      RunOne(g2, 2, 4, Pos(1, 2), 'u');
      var s := Slide(g2, 2, 4, Pos(1, 2), Pos(0, 2));
      assert s[0] == g3[0];
      assert s[1] == g3[1];
    }
    RunThen(g0, 2, 4, Pos(0, 3), "ld", g2, Pos(1, 2), "u", g3, Pos(0, 2));
    assert "ld" + "u" == "ldu";
  }

  /** The second move of that "urrdl", which brings the blank to (0, 3) in the last column. */
  lemma Row1PhaseStopsMovesPart4()
    ensures Run([[1, 2, 0, 4], [3, 5, 7, 6]], 2, 4, Pos(0, 2), "r")
         == Done([[1, 2, 4, 0], [3, 5, 7, 6]], Pos(0, 3))
  {
    hide Run, RunFrom;
    var g0: Grid := [[1, 2, 0, 4], [3, 5, 7, 6]];
    var g1: Grid := [[1, 2, 4, 0], [3, 5, 7, 6]];
    assert Run(g0, 2, 4, Pos(0, 2), "r") == Done(g1, Pos(0, 3)) by {
      RunOne(g0, 2, 4, Pos(0, 2), 'r');
      var s := Slide(g0, 2, 4, Pos(0, 2), Pos(0, 3));
      assert s[0] == g1[0];
      assert s[1] == g1[1];
    }
  }

  /**
   * The ten moves the row-1 phase applies on that board before the blank reaches
   * the last column.
   */
  lemma Row1PhaseStopsMoves()
    ensures Run([[1, 2, 4, 6], [3, 5, 0, 7]], 2, 4, Pos(1, 2), "urldruldur")
         == Done([[1, 2, 4, 0], [3, 5, 7, 6]], Pos(0, 3))
  {
    hide Run, RunFrom;
    var g0: Grid := [[1, 2, 4, 6], [3, 5, 0, 7]];
    var g1: Grid := [[1, 2, 0, 6], [3, 5, 4, 7]];
    var g2: Grid := [[1, 2, 4, 0], [3, 5, 7, 6]];
    var g3: Grid := [[1, 2, 0, 4], [3, 5, 7, 6]];
    var g4: Grid := [[1, 2, 4, 0], [3, 5, 7, 6]];
    Row1PhaseStopsMovesPart1();
    Row1PhaseStopsMovesPart2();
    Row1PhaseStopsMovesPart3();
    Row1PhaseStopsMovesPart4();
    RunThen(g0, 2, 4, Pos(1, 2), "url", g1, Pos(0, 2), "dru", g2, Pos(0, 3));
    assert "url" + "dru" == "urldru";
    RunThen(g0, 2, 4, Pos(1, 2), "urldru", g2, Pos(0, 3), "ldu", g3, Pos(0, 2));
    assert "urldru" + "ldu" == "urldruldu";
    RunThen(g0, 2, 4, Pos(1, 2), "urldruldu", g3, Pos(0, 2), "r", g4, Pos(0, 3));
    assert "urldruldu" + "r" == "urldruldur";
  }

  /**
   * On the board that Row1CheckAdmits lets through, the row-1 phase at column 2
   * applies "url" from its approach, "druld" from its downward walk and then
   * "urrdl" from its rightward walk, whose third move leaves the grid: the
   * replay stops at move 10, where the source fails its assertion.
   */
  lemma Row1PhaseStops()
    ensures Run([[1, 2, 4, 6], [3, 5, 0, 7]], 2, 4, Pos(1, 2), "urldruldurrdl")
         == Stopped([[1, 2, 4, 0], [3, 5, 7, 6]], Pos(0, 3), 10, OffGrid)
  {
    Row1PhaseStopsMoves();
    RunAppend([[1, 2, 4, 6], [3, 5, 0, 7]], 2, 4, Pos(1, 2), "urldruldur", "rdl");
    assert "urldruldur" + "rdl" == "urldruldurrdl";
  }

  /** The row-0 phase's opening "ld", then the approach's first move up. */
  lemma Row0PhaseStopsMovesPart1()
    ensures Run([[1, 3, 0, 2], [4, 5, 6, 7]], 2, 4, Pos(0, 2), "ldu")
         == Done([[1, 0, 3, 2], [4, 5, 6, 7]], Pos(0, 1))
  {
    hide Run, RunFrom;
    var g0: Grid := [[1, 3, 0, 2], [4, 5, 6, 7]];
    var g1: Grid := [[1, 0, 3, 2], [4, 5, 6, 7]];
    var g2: Grid := [[1, 5, 3, 2], [4, 0, 6, 7]];
    var g3: Grid := [[1, 0, 3, 2], [4, 5, 6, 7]];
    assert Run(g0, 2, 4, Pos(0, 2), "l") == Done(g1, Pos(0, 1)) by {
      RunOne(g0, 2, 4, Pos(0, 2), 'l');
      var s := Slide(g0, 2, 4, Pos(0, 2), Pos(0, 1));
      assert s[0] == g1[0];
      assert s[1] == g1[1];
    }
    assert Run(g1, 2, 4, Pos(0, 1), "d") == Done(g2, Pos(1, 1)) by {
      RunOne(g1, 2, 4, Pos(0, 1), 'd');
      var s := Slide(g1, 2, 4, Pos(0, 1), Pos(1, 1));
      assert s[0] == g2[0];
      assert s[1] == g2[1];
    }
    RunThen(g0, 2, 4, Pos(0, 2), "l", g1, Pos(0, 1), "d", g2, Pos(1, 1));
    assert "l" + "d" == "ld";
    assert Run(g2, 2, 4, Pos(1, 1), "u") == Done(g3, Pos(0, 1)) by {
      RunOne(g2, 2, 4, Pos(1, 1), 'u');
      var s := Slide(g2, 2, 4, Pos(1, 1), Pos(0, 1));
      assert s[0] == g3[0];
      assert s[1] == g3[1];
    }
    RunThen(g0, 2, 4, Pos(0, 2), "ld", g2, Pos(1, 1), "u", g3, Pos(0, 1));
    assert "ld" + "u" == "ldu";
  }

  /**
   * The approach's "rr", which carries the tile for (0, 2) home by accident, and the first move of
   * the downward walk's "druld".
   */
  lemma Row0PhaseStopsMovesPart2()
    ensures Run([[1, 0, 3, 2], [4, 5, 6, 7]], 2, 4, Pos(0, 1), "rrd")
         == Done([[1, 3, 2, 7], [4, 5, 6, 0]], Pos(1, 3))
  {
    hide Run, RunFrom;
    var g0: Grid := [[1, 0, 3, 2], [4, 5, 6, 7]];
    var g1: Grid := [[1, 3, 0, 2], [4, 5, 6, 7]];
    var g2: Grid := [[1, 3, 2, 0], [4, 5, 6, 7]];
    var g3: Grid := [[1, 3, 2, 7], [4, 5, 6, 0]];
    assert Run(g0, 2, 4, Pos(0, 1), "r") == Done(g1, Pos(0, 2)) by {
      RunOne(g0, 2, 4, Pos(0, 1), 'r');
      var s := Slide(g0, 2, 4, Pos(0, 1), Pos(0, 2));
      assert s[0] == g1[0];
      assert s[1] == g1[1];
    }
    assert Run(g1, 2, 4, Pos(0, 2), "r") == Done(g2, Pos(0, 3)) by {
      RunOne(g1, 2, 4, Pos(0, 2), 'r');
      var s := Slide(g1, 2, 4, Pos(0, 2), Pos(0, 3));
      assert s[0] == g2[0];
      assert s[1] == g2[1];
    }
    RunThen(g0, 2, 4, Pos(0, 1), "r", g1, Pos(0, 2), "r", g2, Pos(0, 3));
    assert "r" + "r" == "rr";
    assert Run(g2, 2, 4, Pos(0, 3), "d") == Done(g3, Pos(1, 3)) by {
      RunOne(g2, 2, 4, Pos(0, 3), 'd');
      var s := Slide(g2, 2, 4, Pos(0, 3), Pos(1, 3));
      assert s[0] == g3[0];
      assert s[1] == g3[1];
    }
    RunThen(g0, 2, 4, Pos(0, 1), "rr", g2, Pos(0, 3), "d", g3, Pos(1, 3));
    assert "rr" + "d" == "rrd";
  }

  /**
   * The six moves the row-0 phase applies on that board before the blank reaches
   * the last column.
   */
  lemma Row0PhaseStopsMoves()
    ensures Run([[1, 3, 0, 2], [4, 5, 6, 7]], 2, 4, Pos(0, 2), "ldurrd")
         == Done([[1, 3, 2, 7], [4, 5, 6, 0]], Pos(1, 3))
  {
    hide Run, RunFrom;
    var g0: Grid := [[1, 3, 0, 2], [4, 5, 6, 7]];
    var g1: Grid := [[1, 0, 3, 2], [4, 5, 6, 7]];
    var g2: Grid := [[1, 3, 2, 7], [4, 5, 6, 0]];
    Row0PhaseStopsMovesPart1();
    Row0PhaseStopsMovesPart2();
    RunThen(g0, 2, 4, Pos(0, 2), "ldu", g1, Pos(0, 1), "rrd", g2, Pos(1, 3));
    assert "ldu" + "rrd" == "ldurrd";
  }

  /**
   * On the board that Row0CheckAdmits lets through, the row-0 phase at column 2
   * applies "ld", then "urr" from its approach, which leaves the tile home
   * and the blank at (0, 3); since the tile is in row 0 it walks it down with
   * "druld", whose second move leaves the grid: the replay stops at move 6,
   * where the source fails its assertion.
   */
  lemma Row0PhaseStops()
    ensures Run([[1, 3, 0, 2], [4, 5, 6, 7]], 2, 4, Pos(0, 2), "ldurrdruld")
         == Stopped([[1, 3, 2, 7], [4, 5, 6, 0]], Pos(1, 3), 6, OffGrid)
  {
    Row0PhaseStopsMoves();
    RunAppend([[1, 3, 0, 2], [4, 5, 6, 7]], 2, 4, Pos(0, 2), "ldurrd", "ruld");
    assert "ldurrd" + "ruld" == "ldurrdruld";
  }
}
