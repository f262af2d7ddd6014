/**
 * Concrete boards from the repository's test suite, replayed and checked
 * against the model: each lemma states what the corresponding test expects.
 */
module PuzzleExamples {
  import opened PuzzleGrid
  import opened PuzzleMoves

  /**
   * The four 2x2 boards tested at (0, 0): only the solved board satisfies
   * the lower-row invariant; the other three fail because cell (1, 0) does
   * not hold 2.
   */
  lemma LowerRowSmallExamples()
    ensures LowerRowInvariant([[0, 1], [2, 3]], 2, 2, 0, 0)
    ensures !LowerRowInvariant([[2, 1], [0, 3]], 2, 2, 0, 0)
    ensures !LowerRowInvariant([[0, 2], [1, 3]], 2, 2, 0, 0)
    ensures !LowerRowInvariant([[0, 3], [1, 2]], 2, 2, 0, 0)
  {
    hide Find, FindFrom, IsPermutation;
    var g: Grid := [[0, 1], [2, 3]];
    PermutationByTable(g, 2, 2, [Pos(0, 0), Pos(0, 1), Pos(1, 0), Pos(1, 1)]);
    FindInPermutation(g, 2, 2, Pos(0, 0));
    var b1: Grid := [[2, 1], [0, 3]];
    var b2: Grid := [[0, 2], [1, 3]];
    var b3: Grid := [[0, 3], [1, 2]];
    assert b1[1][0] != SolvedValue(2, 1, 0);
    assert b2[1][0] != SolvedValue(2, 1, 0);
    assert b3[1][0] != SolvedValue(2, 1, 0);
  }

  /** The 4x4 board tested at (2, 2) satisfies the lower-row invariant. */
  lemma LowerRowLargeExample()
    ensures LowerRowInvariant([[4, 2, 3, 7], [8, 5, 6, 10], [9, 1, 0, 11], [12, 13, 14, 15]], 4, 4, 2, 2)
  {
    hide Find, FindFrom, IsPermutation;
    var g: Grid := [[4, 2, 3, 7], [8, 5, 6, 10], [9, 1, 0, 11], [12, 13, 14, 15]];
    PermutationByTable(g, 4, 4, [Pos(2, 2), Pos(2, 1), Pos(0, 1), Pos(0, 2), Pos(0, 0), Pos(1, 1), Pos(1, 2), Pos(0, 3),
                                 Pos(1, 0), Pos(2, 0), Pos(1, 3), Pos(2, 3), Pos(3, 0), Pos(3, 1), Pos(3, 2), Pos(3, 3)]);
    FindInPermutation(g, 4, 4, Pos(2, 2));
  }

  /**
   * The interior-tile test's first three moves: the blank climbs twice, pulling tile 8 down to (1,
   * 2), then steps left.
   */
  lemma InteriorTileReplayPart1()
    ensures Run([[4, 3, 8], [1, 2, 5], [6, 7, 0]], 3, 3, Pos(2, 2), "uul")
         == Done([[4, 0, 3], [1, 2, 8], [6, 7, 5]], Pos(0, 1))
  {
    hide Run, RunFrom;
    var g0: Grid := [[4, 3, 8], [1, 2, 5], [6, 7, 0]];
    var g1: Grid := [[4, 3, 8], [1, 2, 0], [6, 7, 5]];
    var g2: Grid := [[4, 3, 0], [1, 2, 8], [6, 7, 5]];
    var g3: Grid := [[4, 0, 3], [1, 2, 8], [6, 7, 5]];
    assert Run(g0, 3, 3, Pos(2, 2), "u") == Done(g1, Pos(1, 2)) by {
      RunOne(g0, 3, 3, Pos(2, 2), 'u');
      var s := Slide(g0, 3, 3, Pos(2, 2), Pos(1, 2));
      assert s[0] == g1[0];
      assert s[1] == g1[1];
      assert s[2] == g1[2];
    }
    assert Run(g1, 3, 3, Pos(1, 2), "u") == Done(g2, Pos(0, 2)) by {
      RunOne(g1, 3, 3, Pos(1, 2), 'u');
      var s := Slide(g1, 3, 3, Pos(1, 2), Pos(0, 2));
      assert s[0] == g2[0];
      assert s[1] == g2[1];
      assert s[2] == g2[2];
    }
    RunThen(g0, 3, 3, Pos(2, 2), "u", g1, Pos(1, 2), "u", g2, Pos(0, 2));
    assert "u" + "u" == "uu";
    assert Run(g2, 3, 3, Pos(0, 2), "l") == Done(g3, Pos(0, 1)) by {
      RunOne(g2, 3, 3, Pos(0, 2), 'l');
      var s := Slide(g2, 3, 3, Pos(0, 2), Pos(0, 1));
      assert s[0] == g3[0];
      assert s[1] == g3[1];
      assert s[2] == g3[2];
    }
    RunThen(g0, 3, 3, Pos(2, 2), "uu", g2, Pos(0, 2), "l", g3, Pos(0, 1));
    assert "uu" + "l" == "uul";
  }

  /** The next three moves take the blank down the middle column and right, to just below tile 8. */
  lemma InteriorTileReplayPart2()
    ensures Run([[4, 0, 3], [1, 2, 8], [6, 7, 5]], 3, 3, Pos(0, 1), "ddr")
         == Done([[4, 2, 3], [1, 7, 8], [6, 5, 0]], Pos(2, 2))
  {
    hide Run, RunFrom;
    var g0: Grid := [[4, 0, 3], [1, 2, 8], [6, 7, 5]];
    var g1: Grid := [[4, 2, 3], [1, 0, 8], [6, 7, 5]];
    var g2: Grid := [[4, 2, 3], [1, 7, 8], [6, 0, 5]];
    var g3: Grid := [[4, 2, 3], [1, 7, 8], [6, 5, 0]];
    assert Run(g0, 3, 3, Pos(0, 1), "d") == Done(g1, Pos(1, 1)) by {
      RunOne(g0, 3, 3, Pos(0, 1), 'd');
      var s := Slide(g0, 3, 3, Pos(0, 1), Pos(1, 1));
      assert s[0] == g1[0];
      assert s[1] == g1[1];
      assert s[2] == g1[2];
    }
    assert Run(g1, 3, 3, Pos(1, 1), "d") == Done(g2, Pos(2, 1)) by {
      RunOne(g1, 3, 3, Pos(1, 1), 'd');
      var s := Slide(g1, 3, 3, Pos(1, 1), Pos(2, 1));
      assert s[0] == g2[0];
      assert s[1] == g2[1];
      assert s[2] == g2[2];
    }
    RunThen(g0, 3, 3, Pos(0, 1), "d", g1, Pos(1, 1), "d", g2, Pos(2, 1));
    assert "d" + "d" == "dd";
    assert Run(g2, 3, 3, Pos(2, 1), "r") == Done(g3, Pos(2, 2)) by {
      RunOne(g2, 3, 3, Pos(2, 1), 'r');
      var s := Slide(g2, 3, 3, Pos(2, 1), Pos(2, 2));
      assert s[0] == g3[0];
      assert s[1] == g3[1];
      assert s[2] == g3[2];
    }
    RunThen(g0, 3, 3, Pos(0, 1), "dd", g2, Pos(2, 1), "r", g3, Pos(2, 2));
    assert "dd" + "r" == "ddr";
  }

  /**
   * The last three moves push tile 8 down to its home (2, 2) and bring the blank back to (2, 1).
   */
  lemma InteriorTileReplayPart3()
    ensures Run([[4, 2, 3], [1, 7, 8], [6, 5, 0]], 3, 3, Pos(2, 2), "uld")
         == Done([[4, 2, 3], [1, 5, 7], [6, 0, 8]], Pos(2, 1))
  {
    hide Run, RunFrom;
    var g0: Grid := [[4, 2, 3], [1, 7, 8], [6, 5, 0]];
    var g1: Grid := [[4, 2, 3], [1, 7, 0], [6, 5, 8]];
    var g2: Grid := [[4, 2, 3], [1, 0, 7], [6, 5, 8]];
    var g3: Grid := [[4, 2, 3], [1, 5, 7], [6, 0, 8]];
    assert Run(g0, 3, 3, Pos(2, 2), "u") == Done(g1, Pos(1, 2)) by {
      RunOne(g0, 3, 3, Pos(2, 2), 'u');
      var s := Slide(g0, 3, 3, Pos(2, 2), Pos(1, 2));
      assert s[0] == g1[0];
      assert s[1] == g1[1];
      assert s[2] == g1[2];
    }
    assert Run(g1, 3, 3, Pos(1, 2), "l") == Done(g2, Pos(1, 1)) by {
      RunOne(g1, 3, 3, Pos(1, 2), 'l');
      var s := Slide(g1, 3, 3, Pos(1, 2), Pos(1, 1));
      assert s[0] == g2[0];
      assert s[1] == g2[1];
      assert s[2] == g2[2];
    }
    RunThen(g0, 3, 3, Pos(2, 2), "u", g1, Pos(1, 2), "l", g2, Pos(1, 1));
    assert "u" + "l" == "ul";
    assert Run(g2, 3, 3, Pos(1, 1), "d") == Done(g3, Pos(2, 1)) by {
      RunOne(g2, 3, 3, Pos(1, 1), 'd');
      var s := Slide(g2, 3, 3, Pos(1, 1), Pos(2, 1));
      assert s[0] == g3[0];
      assert s[1] == g3[1];
      assert s[2] == g3[2];
    }
    RunThen(g0, 3, 3, Pos(2, 2), "ul", g2, Pos(1, 1), "d", g3, Pos(2, 1));
    assert "ul" + "d" == "uld";
  }

  /**
   * The moves the interior-tile test expects: the blank pulls tile 8 down to
   * (1, 2), circles below it and pushes it home to (2, 2), ending at (2, 1).
   */
  lemma InteriorTileReplay()
    ensures Run([[4, 3, 8], [1, 2, 5], [6, 7, 0]], 3, 3, Pos(2, 2), "uulddruld")
         == Done([[4, 2, 3], [1, 5, 7], [6, 0, 8]], Pos(2, 1))
  {
    hide Run, RunFrom;
    var g0: Grid := [[4, 3, 8], [1, 2, 5], [6, 7, 0]];
    var g1: Grid := [[4, 0, 3], [1, 2, 8], [6, 7, 5]];
    var g2: Grid := [[4, 2, 3], [1, 7, 8], [6, 5, 0]];
    var g3: Grid := [[4, 2, 3], [1, 5, 7], [6, 0, 8]];
    InteriorTileReplayPart1();
    InteriorTileReplayPart2();
    InteriorTileReplayPart3();
    RunThen(g0, 3, 3, Pos(2, 2), "uul", g1, Pos(0, 1), "ddr", g2, Pos(2, 2));
    assert "uul" + "ddr" == "uulddr";
    RunThen(g0, 3, 3, Pos(2, 2), "uulddr", g2, Pos(2, 2), "uld", g3, Pos(2, 1));
    assert "uulddr" + "uld" == "uulddruld";
  }

  /** The interior-tile test's board satisfies the invariant at (2, 2). */
  lemma InteriorTileBefore()
    ensures LowerRowInvariant([[4, 3, 8], [1, 2, 5], [6, 7, 0]], 3, 3, 2, 2)
  {
    hide Find, FindFrom, IsPermutation;
    var g: Grid := [[4, 3, 8], [1, 2, 5], [6, 7, 0]];
    PermutationByTable(g, 3, 3, [Pos(2, 2), Pos(1, 0), Pos(1, 1), Pos(0, 1), Pos(0, 0), Pos(1, 2), Pos(2, 0), Pos(2, 1), Pos(0, 2)]);
    FindInPermutation(g, 3, 3, Pos(2, 2));
  }

  /** The board the interior-tile test leaves satisfies the invariant at (2, 1). */
  lemma InteriorTileAfter()
    ensures LowerRowInvariant([[4, 2, 3], [1, 5, 7], [6, 0, 8]], 3, 3, 2, 1)
  {
    hide Find, FindFrom, IsPermutation;
    var g: Grid := [[4, 2, 3], [1, 5, 7], [6, 0, 8]];
    PermutationByTable(g, 3, 3, [Pos(2, 1), Pos(1, 0), Pos(0, 1), Pos(0, 2), Pos(0, 0), Pos(1, 1), Pos(2, 0), Pos(1, 2), Pos(2, 2)]);
    FindInPermutation(g, 3, 3, Pos(2, 1));
  }

  /**
   * The interior-tile test: the expected moves "uulddruld" replay fully from
   * a board satisfying the invariant at (2, 2) and leave one satisfying it
   * at (2, 1), with tile 8 home.
   */
  lemma InteriorTileExample()
    ensures var g: Grid := [[4, 3, 8], [1, 2, 5], [6, 7, 0]];
      var g': Grid := [[4, 2, 3], [1, 5, 7], [6, 0, 8]];
      && LowerRowInvariant(g, 3, 3, 2, 2)
      && Run(g, 3, 3, Pos(2, 2), "uulddruld") == Done(g', Pos(2, 1))
      && LowerRowInvariant(g', 3, 3, 2, 1)
  {
    hide LowerRowInvariant, Run, RunFrom;
    InteriorTileBefore();
    InteriorTileReplay();
    InteriorTileAfter();
  }

  /**
   * The row-1 tile test's first two moves: the blank climbs to row 0 and moves tile 6 right to (0,
   * 2).
   */
  lemma Row1TileReplayPart1()
    ensures Run([[4, 6, 1, 3], [5, 2, 0, 7], [8, 9, 10, 11], [12, 13, 14, 15]], 4, 4, Pos(1, 2), "ul")
         == Done([[4, 0, 6, 3], [5, 2, 1, 7], [8, 9, 10, 11], [12, 13, 14, 15]], Pos(0, 1))
  {
    hide Run, RunFrom;
    var g0: Grid := [[4, 6, 1, 3], [5, 2, 0, 7], [8, 9, 10, 11], [12, 13, 14, 15]];
    var g1: Grid := [[4, 6, 0, 3], [5, 2, 1, 7], [8, 9, 10, 11], [12, 13, 14, 15]];
    var g2: Grid := [[4, 0, 6, 3], [5, 2, 1, 7], [8, 9, 10, 11], [12, 13, 14, 15]];
    assert Run(g0, 4, 4, Pos(1, 2), "u") == Done(g1, Pos(0, 2)) by {
      RunOne(g0, 4, 4, Pos(1, 2), 'u');
      var s := Slide(g0, 4, 4, Pos(1, 2), Pos(0, 2));
      assert s[0] == g1[0];
      assert s[1] == g1[1];
      assert s[2] == g1[2];
      assert s[3] == g1[3];
    }
    assert Run(g1, 4, 4, Pos(0, 2), "l") == Done(g2, Pos(0, 1)) by {
      RunOne(g1, 4, 4, Pos(0, 2), 'l');
      var s := Slide(g1, 4, 4, Pos(0, 2), Pos(0, 1));
      assert s[0] == g2[0];
      assert s[1] == g2[1];
      assert s[2] == g2[2];
      assert s[3] == g2[3];
    }
    RunThen(g0, 4, 4, Pos(1, 2), "u", g1, Pos(0, 2), "l", g2, Pos(0, 1));
    assert "u" + "l" == "ul";
  }

  /** The next two moves take the blank down and back right, to just below tile 6. */
  lemma Row1TileReplayPart2()
    ensures Run([[4, 0, 6, 3], [5, 2, 1, 7], [8, 9, 10, 11], [12, 13, 14, 15]], 4, 4, Pos(0, 1), "dr")
         == Done([[4, 2, 6, 3], [5, 1, 0, 7], [8, 9, 10, 11], [12, 13, 14, 15]], Pos(1, 2))
  {
    hide Run, RunFrom;
    var g0: Grid := [[4, 0, 6, 3], [5, 2, 1, 7], [8, 9, 10, 11], [12, 13, 14, 15]];
    var g1: Grid := [[4, 2, 6, 3], [5, 0, 1, 7], [8, 9, 10, 11], [12, 13, 14, 15]];
    var g2: Grid := [[4, 2, 6, 3], [5, 1, 0, 7], [8, 9, 10, 11], [12, 13, 14, 15]];
    assert Run(g0, 4, 4, Pos(0, 1), "d") == Done(g1, Pos(1, 1)) by {
      RunOne(g0, 4, 4, Pos(0, 1), 'd');
      var s := Slide(g0, 4, 4, Pos(0, 1), Pos(1, 1));
      assert s[0] == g1[0];
      assert s[1] == g1[1];
      assert s[2] == g1[2];
      assert s[3] == g1[3];
    }
    assert Run(g1, 4, 4, Pos(1, 1), "r") == Done(g2, Pos(1, 2)) by {
      RunOne(g1, 4, 4, Pos(1, 1), 'r');
      var s := Slide(g1, 4, 4, Pos(1, 1), Pos(1, 2));
      assert s[0] == g2[0];
      assert s[1] == g2[1];
      assert s[2] == g2[2];
      assert s[3] == g2[3];
    }
    RunThen(g0, 4, 4, Pos(0, 1), "d", g1, Pos(1, 1), "r", g2, Pos(1, 2));
    assert "d" + "r" == "dr";
  }

  /** The fifth move pushes tile 6 down to its home (1, 2). */
  lemma Row1TileReplayPart3()
    ensures Run([[4, 2, 6, 3], [5, 1, 0, 7], [8, 9, 10, 11], [12, 13, 14, 15]], 4, 4, Pos(1, 2), "u")
         == Done([[4, 2, 0, 3], [5, 1, 6, 7], [8, 9, 10, 11], [12, 13, 14, 15]], Pos(0, 2))
  {
    hide Run, RunFrom;
    var g0: Grid := [[4, 2, 6, 3], [5, 1, 0, 7], [8, 9, 10, 11], [12, 13, 14, 15]];
    var g1: Grid := [[4, 2, 0, 3], [5, 1, 6, 7], [8, 9, 10, 11], [12, 13, 14, 15]];
    assert Run(g0, 4, 4, Pos(1, 2), "u") == Done(g1, Pos(0, 2)) by {
      RunOne(g0, 4, 4, Pos(1, 2), 'u');
      var s := Slide(g0, 4, 4, Pos(1, 2), Pos(0, 2));
      assert s[0] == g1[0];
      assert s[1] == g1[1];
      assert s[2] == g1[2];
      assert s[3] == g1[3];
    }
  }

  /** The next two moves take the blank left and down. */
  lemma Row1TileReplayPart4()
    ensures Run([[4, 2, 0, 3], [5, 1, 6, 7], [8, 9, 10, 11], [12, 13, 14, 15]], 4, 4, Pos(0, 2), "ld")
         == Done([[4, 1, 2, 3], [5, 0, 6, 7], [8, 9, 10, 11], [12, 13, 14, 15]], Pos(1, 1))
  {
    hide Run, RunFrom;
    var g0: Grid := [[4, 2, 0, 3], [5, 1, 6, 7], [8, 9, 10, 11], [12, 13, 14, 15]];
    var g1: Grid := [[4, 0, 2, 3], [5, 1, 6, 7], [8, 9, 10, 11], [12, 13, 14, 15]];
    var g2: Grid := [[4, 1, 2, 3], [5, 0, 6, 7], [8, 9, 10, 11], [12, 13, 14, 15]];
    assert Run(g0, 4, 4, Pos(0, 2), "l") == Done(g1, Pos(0, 1)) by {
      RunOne(g0, 4, 4, Pos(0, 2), 'l');
      var s := Slide(g0, 4, 4, Pos(0, 2), Pos(0, 1));
      assert s[0] == g1[0];
      assert s[1] == g1[1];
      assert s[2] == g1[2];
      assert s[3] == g1[3];
    }
    assert Run(g1, 4, 4, Pos(0, 1), "d") == Done(g2, Pos(1, 1)) by {
      RunOne(g1, 4, 4, Pos(0, 1), 'd');
      var s := Slide(g1, 4, 4, Pos(0, 1), Pos(1, 1));
      assert s[0] == g2[0];
      assert s[1] == g2[1];
      assert s[2] == g2[2];
      assert s[3] == g2[3];
    }
    RunThen(g0, 4, 4, Pos(0, 2), "l", g1, Pos(0, 1), "d", g2, Pos(1, 1));
    assert "l" + "d" == "ld";
  }

  /** The last two moves take the blank back up and right, restoring the board. */
  lemma Row1TileReplayPart5()
    ensures Run([[4, 1, 2, 3], [5, 0, 6, 7], [8, 9, 10, 11], [12, 13, 14, 15]], 4, 4, Pos(1, 1), "ur")
         == Done([[4, 2, 0, 3], [5, 1, 6, 7], [8, 9, 10, 11], [12, 13, 14, 15]], Pos(0, 2))
  {
    hide Run, RunFrom;
    var g0: Grid := [[4, 1, 2, 3], [5, 0, 6, 7], [8, 9, 10, 11], [12, 13, 14, 15]];
    var g1: Grid := [[4, 0, 2, 3], [5, 1, 6, 7], [8, 9, 10, 11], [12, 13, 14, 15]];
    var g2: Grid := [[4, 2, 0, 3], [5, 1, 6, 7], [8, 9, 10, 11], [12, 13, 14, 15]];
    assert Run(g0, 4, 4, Pos(1, 1), "u") == Done(g1, Pos(0, 1)) by {
      RunOne(g0, 4, 4, Pos(1, 1), 'u');
      var s := Slide(g0, 4, 4, Pos(1, 1), Pos(0, 1));
      assert s[0] == g1[0];
      assert s[1] == g1[1];
      assert s[2] == g1[2];
      assert s[3] == g1[3];
    }
    assert Run(g1, 4, 4, Pos(0, 1), "r") == Done(g2, Pos(0, 2)) by {
      RunOne(g1, 4, 4, Pos(0, 1), 'r');
      var s := Slide(g1, 4, 4, Pos(0, 1), Pos(0, 2));
      assert s[0] == g2[0];
      assert s[1] == g2[1];
      assert s[2] == g2[2];
      assert s[3] == g2[3];
    }
    RunThen(g0, 4, 4, Pos(1, 1), "u", g1, Pos(0, 1), "r", g2, Pos(0, 2));
    assert "u" + "r" == "ur";
  }

  /**
   * The moves the row-1 tile test expects: the first five bring tile 6 home,
   * and the last four ("ldur") turn the blank around and restore the board.
   */
  lemma Row1TileReplay()
    ensures Run([[4, 6, 1, 3], [5, 2, 0, 7], [8, 9, 10, 11], [12, 13, 14, 15]], 4, 4, Pos(1, 2), "uldruldur")
         == Done([[4, 2, 0, 3], [5, 1, 6, 7], [8, 9, 10, 11], [12, 13, 14, 15]], Pos(0, 2))
  {
    hide Run, RunFrom;
    var g0: Grid := [[4, 6, 1, 3], [5, 2, 0, 7], [8, 9, 10, 11], [12, 13, 14, 15]];
    var g1: Grid := [[4, 0, 6, 3], [5, 2, 1, 7], [8, 9, 10, 11], [12, 13, 14, 15]];
    var g2: Grid := [[4, 2, 6, 3], [5, 1, 0, 7], [8, 9, 10, 11], [12, 13, 14, 15]];
    var g3: Grid := [[4, 2, 0, 3], [5, 1, 6, 7], [8, 9, 10, 11], [12, 13, 14, 15]];
    var g4: Grid := [[4, 1, 2, 3], [5, 0, 6, 7], [8, 9, 10, 11], [12, 13, 14, 15]];
    var g5: Grid := [[4, 2, 0, 3], [5, 1, 6, 7], [8, 9, 10, 11], [12, 13, 14, 15]];
    Row1TileReplayPart1();
    Row1TileReplayPart2();
    Row1TileReplayPart3();
    Row1TileReplayPart4();
    Row1TileReplayPart5();
    RunThen(g0, 4, 4, Pos(1, 2), "ul", g1, Pos(0, 1), "dr", g2, Pos(1, 2));
    assert "ul" + "dr" == "uldr";
    RunThen(g0, 4, 4, Pos(1, 2), "uldr", g2, Pos(1, 2), "u", g3, Pos(0, 2));
    assert "uldr" + "u" == "uldru";
    RunThen(g0, 4, 4, Pos(1, 2), "uldru", g3, Pos(0, 2), "ld", g4, Pos(1, 1));
    assert "uldru" + "ld" == "uldruld";
    RunThen(g0, 4, 4, Pos(1, 2), "uldruld", g4, Pos(1, 1), "ur", g5, Pos(0, 2));
    assert "uldruld" + "ur" == "uldruldur";
  }

  /**
   * The row-1 invariant test's board satisfies the invariant at column 2,
   * and row 0 is solved to the right of column 2 as well.
   */
  lemma Row1InvariantExample()
    ensures Row1Ready([[4, 6, 1, 3], [5, 2, 0, 7], [8, 9, 10, 11], [12, 13, 14, 15]], 4, 4, 2)
  {
    hide Find, FindFrom, IsPermutation;
    var g: Grid := [[4, 6, 1, 3], [5, 2, 0, 7], [8, 9, 10, 11], [12, 13, 14, 15]];
    Row1BoardPermutation();
    FindInPermutation(g, 4, 4, Pos(1, 2));
  }

  /** The row-1 test board holds each of 0 .. 15 exactly once. */
  lemma Row1BoardPermutation()
    ensures IsPermutation([[4, 6, 1, 3], [5, 2, 0, 7], [8, 9, 10, 11], [12, 13, 14, 15]], 4, 4)
  {
    hide IsPermutation;
    var g: Grid := [[4, 6, 1, 3], [5, 2, 0, 7], [8, 9, 10, 11], [12, 13, 14, 15]];
    PermutationByTable(g, 4, 4, [Pos(1, 2), Pos(0, 2), Pos(1, 1), Pos(0, 3), Pos(0, 0), Pos(1, 0), Pos(0, 1), Pos(1, 3),
                                 Pos(2, 0), Pos(2, 1), Pos(2, 2), Pos(2, 3), Pos(3, 0), Pos(3, 1), Pos(3, 2), Pos(3, 3)]);
  }

  /**
   * The row-0 invariant test's board satisfies the invariant at column 2,
   * and row 0 is solved to the right of column 2 as well.
   */
  lemma Row0InvariantExample()
    ensures Row0Ready([[4, 2, 0, 3], [5, 1, 6, 7], [8, 9, 10, 11], [12, 13, 14, 15]], 4, 4, 2)
  {
    hide Find, FindFrom, IsPermutation;
    var g: Grid := [[4, 2, 0, 3], [5, 1, 6, 7], [8, 9, 10, 11], [12, 13, 14, 15]];
    Row0BoardPermutation();
    FindInPermutation(g, 4, 4, Pos(0, 2));
  }

  /** The row-0 test board holds each of 0 .. 15 exactly once. */
  lemma Row0BoardPermutation()
    ensures IsPermutation([[4, 2, 0, 3], [5, 1, 6, 7], [8, 9, 10, 11], [12, 13, 14, 15]], 4, 4)
  {
    hide IsPermutation;
    var g: Grid := [[4, 2, 0, 3], [5, 1, 6, 7], [8, 9, 10, 11], [12, 13, 14, 15]];
    PermutationByTable(g, 4, 4, [Pos(0, 2), Pos(1, 1), Pos(0, 1), Pos(0, 3), Pos(0, 0), Pos(1, 0), Pos(1, 2), Pos(1, 3),
                                 Pos(2, 0), Pos(2, 1), Pos(2, 2), Pos(2, 3), Pos(3, 0), Pos(3, 1), Pos(3, 2), Pos(3, 3)]);
  }

  /**
   * The row-1 tile test joins the two invariant tests: from the row-1 board
   * the expected moves "uldruldur" replay fully and lead to exactly the
   * row-0 board.
   */
  lemma Row1TileExample()
    ensures var g: Grid := [[4, 6, 1, 3], [5, 2, 0, 7], [8, 9, 10, 11], [12, 13, 14, 15]];
      var g': Grid := [[4, 2, 0, 3], [5, 1, 6, 7], [8, 9, 10, 11], [12, 13, 14, 15]];
      && Row1Ready(g, 4, 4, 2)
      && Run(g, 4, 4, Pos(1, 2), "uldruldur") == Done(g', Pos(0, 2))
      && Row0Ready(g', 4, 4, 2)
  {
    hide Row1Ready, Row0Ready, Run, RunFrom;
    Row1InvariantExample();
    Row1TileReplay();
    Row0InvariantExample();
  }
}
