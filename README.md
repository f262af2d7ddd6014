# Fifteen puzzle solver, modelled in Dafny

This project models `puzzle.py`, the `Puzzle` class of a solver for the
N×M sliding-tile ("Loyd's fifteen") puzzle. Its solved configuration has
the blank, 0, in the upper-left corner, and cell (r, c) holds `c + width*r`.
The class keeps its dimensions and a grid of rows that it updates in place.
It replays move strings over `u`/`d`/`l`/`r`, and it checks three phase
invariants. Its solver places one tile at a time:

- interior and column-0 tiles, from the bottom row up to row 2;
- then row-1 and row-0 tiles, from the right;
- finally the top-left 2×2 block, which it rotates.

Every solver returns the string of moves it applied.

The modules, in dependency order:

- `PuzzleGrid` (`puzzle_grid.dfy`): the grid, the row-major scan for a
  number (`current_position`), the permutation property, and the "solved
  below / right / at" regions. It also holds the three invariant checks as
  predicates.
- `PuzzleMoves` (`puzzle_moves.dfy`): one move is an exchange of the blank
  with a neighbour. A replay (`Run`) applies a string move by move. It
  stops at the first character that is not a direction or that would take
  the blank off the grid, and keeps the grid as the moves before it left it.
  This module also has the algebra of replays (prefix, append) and the
  "replay within a box" lemma.
- `PuzzleFrames` (`puzzle_frames.dfy`): which cells a phase leaves
  untouched.
- `PuzzleMacros` (`puzzle_macros.dfy`): the effect of every fixed move
  string the solver applies.
- `PuzzleWalks` (`puzzle_walks.dfy`): repeated macros, i.e. the walks that
  push the target tile down, right or left.
- `PuzzleApproach` (`puzzle_approach.dfy`): the blank's approach to the
  target tile and the fix-up that leaves it left of the tile.
- `PuzzlePhases` (`puzzle_phases.dfy`): what each solver phase needs and
  establishes, the 2×2 rotation, the walk to the last cell, and the stages
  of the main loop.
- `PuzzleSolver` (`puzzle_class.dfy`): the class `Puzzle`, with a `grid`
  field that its methods reassign. Every method of the source is a method
  here with the same behaviour, except that the leftward walk records the
  moves it applies (see Findings). The structural differences are listed
  under Left out: helpers for loop bodies, unreachable branches left
  out, and two walk guards folded into the walks' own loop tests.
  - Each move-making method ensures that replaying its returned string from
    the old grid gives the new grid.
  - Each phase ensures its successor invariant and that the cells already
    solved stay solved.
  - `SolvePuzzle` ensures that every cell outside the top-left 2×2 block
    ends solved, and that its flag holds exactly when the whole grid is
    solved.
- `PuzzleFindings` (`puzzle_findings.dfy`): the two discrepancies listed
  under Findings, each on a concrete board.
- `PuzzleExamples` (`puzzle_examples.dfy`): boards from `testsuite.py`,
  checked against the model.

Where the solver asserts an entry invariant, the model makes it a
precondition. Where it asserts an exit invariant, the model proves it as a
postcondition. The "not found" and off-grid assertion failures of
`current_position` and `update_puzzle` become `None` and `Rejected`
results.

## Model

| member | source | states |
|---|---|---|
| PuzzleGrid.SolvedGrid | puzzle.py:22-24 | the default grid has the puzzle's shape and holds `c + width*r` at every cell (r, c) |
| PuzzleGrid.FindFrom | puzzle.py:91-95 | the scan from a cell returns the first later cell in row-major order holding the value, or None exactly when no later cell holds it |
| PuzzleGrid.Find | puzzle.py:83-95 | returns the first cell in row-major order holding the value; no earlier cell holds it; None exactly when no cell holds it |
| PuzzleGrid.FindsEveryValue | puzzle.py:89-95 | on a permutation grid every number in 0 .. h*w-1 is found, so the "not found" assertion cannot fire |
| PuzzleGrid.FindInPermutation | puzzle.py:89-95 | on a permutation grid, the scan for a cell's own number returns exactly that cell |
| PuzzleGrid.PermutationByTable | puzzle.py:15-29 | a grid is a permutation when a table of one cell per number inverts it (used to check concrete boards) |
| PuzzleMoves.Slide | puzzle.py:103-126 | one move keeps the grid's shape |
| PuzzleMoves.SlideSwaps | puzzle.py:103-126 | a move puts 0 in the neighbour's cell and the neighbour's number in the blank's old cell; every other cell is unchanged |
| PuzzleMoves.SlidePreservesPermutation | puzzle.py:103-126 | a move keeps the grid a permutation |
| PuzzleMoves.RunFrom | puzzle.py:102-128 | a replay keeps the shape; a stop happens at an index inside the string; the blank stays tracked |
| PuzzleMoves.RunOne | puzzle.py:103-126 | a one-character legal string moves the blank to the named neighbour by one exchange |
| PuzzleMoves.RunFromStep | puzzle.py:102-126 | replaying from index i equals one move followed by replaying from index i+1 |
| PuzzleMoves.RunPreservesPermutation | puzzle.py:102-126 | any replay, complete or stopped, leaves a permutation |
| PuzzleMoves.StoppedAfterPrefix | puzzle.py:101-128 | a stopped replay's grid is the complete replay of the prefix before the failing character; it stops for a bad direction exactly when that character is not u/d/l/r, and an off-grid stop names a neighbour outside the grid |
| PuzzleMoves.RunStopsAtFirstIllegal | puzzle.py:101-128 | the same for a replay from the start: earlier characters have been applied when the assertion fires |
| PuzzleMoves.RunSuffix | puzzle.py:102-128 | replaying the suffix of a concatenation equals replaying that suffix alone, with stop indices shifted |
| PuzzleMoves.RunPrefix | puzzle.py:102-128 | when the first part replays fully, the rest replays from the state it left |
| PuzzleMoves.RunAppend | puzzle.py:102-128 | replaying `a + b` equals replaying a and then b from where a stopped, which is why each solver's `result += ...` stays a replayable record |
| PuzzleMoves.StoppedPrefix | puzzle.py:102-128 | a replay that stops also stops, at the same character and in the same state, on any longer string it begins |
| PuzzleMoves.RunSplit | puzzle.py:102-128 | a complete replay of a + b passes through a complete replay of a, from whose end b replays to the same result |
| PuzzleMoves.RunThen | puzzle.py:102-128 | two complete replays in sequence give a complete replay of the concatenation |
| PuzzleMoves.PathAppend | puzzle.py:102-126 | the blank's path and the cells' sources compose over a concatenation |
| PuzzleMoves.RunWithin | puzzle.py:102-126 | a string whose blank path stays in a box replays fully, ends where its path ends, moves each cell's number along the path, and leaves every cell outside the box unchanged |
| PuzzleFrames.ApproachFixes | puzzle.py:555-574 | changes confined to the approach region fix every cell after the blank's start and right of the region |
| PuzzleFrames.Located | puzzle.py:89-95 | on a permutation, a number's cell is what the scan returns |
| PuzzleFrames.ReplayedSplit | puzzle.py:101-126 | from the blank's cell in a permutation, a complete replay of a + b splits at the end of a, with the blank found where a leaves it |
| PuzzleFrames.Replayed | puzzle.py:101-126 | a complete replay from the blank keeps a permutation with 0 at the blank's new cell |
| PuzzleFrames.Stepped | puzzle.py:103-126 | one legal move from the blank: complete, keeps a permutation, exchanges two cells and nothing else |
| PuzzleMacros.CycleDown | puzzle.py:610-611 | with the blank left of the tile, "druld" moves the tile one row down, keeps the blank left of it, and touches only the 2×2 square |
| PuzzleMacros.CycleRightOver | puzzle.py:629-630 | with the blank left of the tile (row > 0), "urrdl" moves the tile one column right, keeps the blank left of it, and touches only the 2×3 box above |
| PuzzleMacros.CycleRightUnder | puzzle.py:626-627 | in row 0, "drrul" moves the tile one column right with the blank left of it, touching only the 2×3 box below |
| PuzzleMacros.CycleLeftOver | puzzle.py:650 | "rulld" (row > 0) moves the tile one column left with the blank left of it, touching only the 2×3 box above |
| PuzzleMacros.CycleLeftUnder | puzzle.py:653-654 | in row 0, "rdllu" moves the tile one column left with the blank left of it, touching only the 2×3 box below |
| PuzzleMacros.LeftDown | puzzle.py:203-205 | "ld" with the blank above the tile leaves the blank left of it, touching only a 2×2 square |
| PuzzleMacros.RightDownLeft | puzzle.py:587-589 | "rdl" with the blank above a column-0 tile moves the tile one column right and leaves the blank left of it, touching only a 2×2 square |
| PuzzleMacros.UpRight | puzzle.py:417-420 | "ur" takes the blank from left of the row-1 tile to above it, leaving the tile in place |
| PuzzleMacros.LeftUp | puzzle.py:443-444 | "lu" takes the blank from (1, 1) to (0, 0) and shifts the two cells it passes |
| PuzzleMacros.RotateSquare | puzzle.py:447-448 | "rdlu" from (0, 0) rotates the other three cells of the 2×2 block and brings the blank back |
| PuzzleMacros.PlaceColumnZero | puzzle.py:278-279 | the 3×2 string "ruldrdlurdluurddlur", from (r-1, 0) with the tile at (r-1, 1), puts the tile at (r, 0) and the blank at (r-1, 1), touching only the 3×2 box |
| PuzzleMacros.PlaceRowZero | puzzle.py:388-389 | the 2×3 string "urdlurrdluldrruld", from (1, j-2) with the tile at (1, j-1), puts the tile at (0, j) and the blank at (1, j-1), touching only the 2×3 box |
| PuzzleWalks.Repeat | puzzle.py:609-611 | k rounds of a macro have k times its length |
| PuzzleWalks.LocatedAfter | puzzle.py:612-613 | after a complete replay the scans find the blank and the tile at their new cells |
| PuzzleWalks.DownWalk | puzzle.py:609-613 | k rounds of "druld" move the tile k rows down with the blank left of it, touching only the two columns they pass |
| PuzzleWalks.RightOverWalk | puzzle.py:697-701 | k rounds of "urrdl" move the tile k columns right, touching only the two rows they pass |
| PuzzleWalks.RightUnderWalk | puzzle.py:624-632 | k rounds of "drrul" in row 0 move the tile k columns right |
| PuzzleWalks.LeftOverWalk | puzzle.py:647-651 | k rounds of "rulld" move the tile k columns left |
| PuzzleWalks.LeftUnderWalk | puzzle.py:647-654 | k rounds of "rdllu" in row 0 move the tile k columns left |
| PuzzleWalks.DownWalkNext | puzzle.py:609-613 | one more round of "druld" extends the walk, and the scans see the tile one row lower |
| PuzzleWalks.DownWalkDone | puzzle.py:601-614 | walking down to row r: complete, keeps a permutation, tile at row r with the blank left of it, or nothing changes if already there, and only the walked box changes |
| PuzzleWalks.RightToWalkDone | puzzle.py:689-702 | walking right with "urrdl" to a given column: the same facts |
| PuzzleWalks.RightWalkDone | puzzle.py:616-633 | walking right with "drrul" in row 0 and "urrdl" elsewhere: the same facts |
| PuzzleWalks.LeftWalkDone | puzzle.py:635-661 | walking left with the applied macros: the tile ends at the target column (or stays if not right of it), with the blank left of it, and only the walked box changes |
| PuzzleApproach.ApproachStart | puzzle.py:551-553 | the approach starts with the blank and the tile where the scans find them |
| PuzzleApproach.ApproachFound | puzzle.py:555-556 | during the approach the blank is where the scan finds it, between the tile's row and its start row |
| PuzzleApproach.ApproachMove | puzzle.py:558-571 | each single move of the approach loop is legal and keeps the approach invariant |
| PuzzleApproach.ApproachRound | puzzle.py:555-574 | one round of the loop (a vertical then a horizontal move toward the tile's start cell) keeps the invariant and strictly brings the blank closer: a row up, or the same row and a smaller column distance |
| PuzzleApproach.ChangedWithinStep | puzzle.py:558-571 | a move inside the approach region keeps all changes inside it |
| PuzzleApproach.FinishStay | puzzle.py:581-583 | when the tile is home or right of the blank, the fix-up adds nothing |
| PuzzleApproach.FinishAbove | puzzle.py:585-592 | blank above the tile: "rdl" in column 0, "ld" elsewhere, leaves the blank left of the tile |
| PuzzleApproach.FinishRight | puzzle.py:594-597 | blank right of the tile: "l" leaves the blank left of it |
| PuzzleApproach.ApproachFinish | puzzle.py:576-599 | the fix-up ends with the blank left of the tile, or above it when the tile is home, and leaves the later cells fixed |
| PuzzlePhases.SolvedValueInjective | puzzle.py:89 | distinct cells have distinct solved numbers |
| PuzzlePhases.SolvedValueRange | puzzle.py:22-24 | every cell but (0, 0) has a solved number in 1 .. h*w-1 |
| PuzzlePhases.TileBefore | puzzle.py:162-173 | under the lower-row invariant the tile for (r, c) lies before (r, c) in row-major order |
| PuzzlePhases.HomeFrames | puzzle.py:185-192 | the three walks of the interior phase leave every cell after (r, c) unchanged |
| PuzzlePhases.InteriorFinish | puzzle.py:199-208 | after the walks, "ld" (blank above the tile) or nothing leaves the blank at (r, c-1) with the lower-row invariant there |
| PuzzlePhases.Row1Tile | puzzle.py:402-408 | under Row1Ready at c (the row-1 invariant with row 0 also solved right of c) the tile for (1, c) lies before (1, c) and not right of column c |
| PuzzlePhases.Row1Frames | puzzle.py:410-412 | the down and right walks of the row-1 phase leave the cells after (1, c) and right of column c unchanged |
| PuzzlePhases.Row1Finish | puzzle.py:414-423 | after the walks, "ur" or nothing brings the blank to (0, c) with Row0Ready there: the row-0 invariant with row 0 solved right of c |
| PuzzlePhases.Row0Start | puzzle.py:346-348 | "ld" from (0, c) takes the blank to (1, c-1) and keeps the solved cells of rows 1 and below |
| PuzzlePhases.Row0Tile | puzzle.py:352-358 | if the tile for (0, c) is not home, it lies before (1, c-1), left of column c |
| PuzzlePhases.Row0KeptFrames | puzzle.py:369-380 | the walks of the row-0 phase keep the solved cells it relies on |
| PuzzlePhases.Row0Frames | puzzle.py:357-389 | the approach, the walks and the 2×3 string together leave every cell after (1, c) unchanged |
| PuzzlePhases.Row0Done | puzzle.py:391-392 | with the tile home and the blank at (1, c-1), Row1Ready holds at c-1: the row-1 invariant with row 0 solved right of c-1 |
| PuzzlePhases.Col0Walked | puzzle.py:269-272 | during the column-0 loop the scans find the blank left of the tile |
| PuzzlePhases.Col0WalkStart | puzzle.py:226-235 | the column-0 loop starts with the blank left of the tile, above row r |
| PuzzlePhases.Col0WalkDown | puzzle.py:259-262 | "druld" while the tile is above row r-1 keeps the loop invariant one row lower |
| PuzzlePhases.Col0WalkLeft | puzzle.py:264-267 | "rulld" while the tile is right of column 1 keeps the loop invariant one column left |
| PuzzlePhases.Col0Place | puzzle.py:276-279 | the 3×2 string from (r-1, 0) puts the tile at (r, 0), the blank at (r-1, 1), and fixes every cell after (r, 0) |
| PuzzlePhases.Col0RightStep | puzzle.py:283-286 | each "r" of the closing walk keeps the tile placed and the blank tracked |
| PuzzlePhases.Col0Done | puzzle.py:288-289 | the closing walk ends with the lower-row invariant at (r-1, w-1) |
| PuzzlePhases.TwoByTwoMoves | puzzle.py:443-449 | "lu" followed by k rounds of "rdlu" has length 2 + 4k |
| PuzzlePhases.TwoByTwoStart | puzzle.py:436-444 | under the row-1 invariant at column 1, "lu" replays fully and brings the blank to (0, 0) |
| PuzzlePhases.TwoByTwoStep | puzzle.py:446-449 | each "rdlu" keeps the blank at (0, 0) and every other cell outside the block |
| PuzzlePhases.TwoByTwoChecked | puzzle.py:446 | the loop's test is exactly "k rounds solve the block" |
| PuzzlePhases.RotateThrice | puzzle.py:447-451 | three rounds of "rdlu" restore the grid, so more rounds than three could never help |
| PuzzlePhases.TwoByTwoCycle | puzzle.py:446-451 | the state after k rounds recurs after k + 3 rounds |
| PuzzlePhases.TwoByTwoFinishes | puzzle.py:453 | after the 2×2 phase every cell outside the block is solved, and the block is solved exactly when the whole grid is |
| PuzzlePhases.TwoByTwoExamples | testsuite.py:196-201 | "lu" solves [[2,1],[3,0]]; [[3,2],[1,0]] is not solved by "lu" but is by "lurdlu" |
| PuzzlePhases.EndMovesCount | puzzle.py:704-726 | the walk to the last cell consists of exactly `down` d's and `right` r's |
| PuzzlePhases.EndStep | puzzle.py:714-721 | a "d" above the last row or an "r" before the last column is legal and keeps the blank tracked |
| PuzzlePhases.EndWalkStart | puzzle.py:708-709 | the walk starts at the blank's cell |
| PuzzlePhases.EndWalked | puzzle.py:724 | the scan finds the blank where the walk has brought it |
| PuzzlePhases.EndRound | puzzle.py:710-724 | each round appends its "d"/"r" to the total and the remaining distance shrinks |
| PuzzlePhases.StageFacts | puzzle.py:475-493 | the blank's cell selects the phase whose entry invariant holds |
| PuzzlePhases.StageLower | puzzle.py:476-483 | the lower-row invariant at (r, c) is a stage of the loop |
| PuzzlePhases.StageRow0 | puzzle.py:488-491 | Row0Ready at c > 1 (the row-0 invariant with row 0 solved right of c) is a stage |
| PuzzlePhases.StageRow1 | puzzle.py:484-487 | Row1Ready at c > 0 (the row-1 invariant with row 0 solved right of c) is a stage |
| PuzzlePhases.StageStart | puzzle.py:468-470 | the blank at the last cell is the first stage |
| PuzzlePhases.StageRankDrops | puzzle.py:475-493 | every phase moves to a stage of lower rank, so the loop ends |
| PuzzleSolver.PyIndex | puzzle.py:59-70 | a Python index in range denotes the cell i or i + n |
| PuzzleSolver.Puzzle.constructor | puzzle.py:15-29 | a new puzzle has the given dimensions and is solved, or holds a copy of the initial grid cell by cell |
| PuzzleSolver.Puzzle.GetNumber | puzzle.py:59-64 | the number at (row, col), with negative indices counting from the end |
| PuzzleSolver.Puzzle.SetNumber | puzzle.py:66-70 | writes one cell and leaves every other cell unchanged |
| PuzzleSolver.Puzzle.Clone | puzzle.py:72-78 | a fresh puzzle with the same dimensions and grid |
| PuzzleSolver.Puzzle.CurrentPosition | puzzle.py:83-95 | the row-major scan returns the first cell holding `c + width*r`, None where the source fails its assertion |
| PuzzleSolver.Puzzle.CheckSolvedBelow | puzzle.py:501-515 | true exactly when every row below the target row is solved |
| PuzzleSolver.Puzzle.CheckSolvedRight | puzzle.py:517-530 | true exactly when the target row is solved right of the column |
| PuzzleSolver.Puzzle.CheckSolvedAt | puzzle.py:532-543 | true exactly when the cell holds its solved number |
| PuzzleSolver.Puzzle.CheckLowerRow | puzzle.py:133-154 | true exactly when the blank is at (r, c), every row below r is solved and row r is solved right of c |
| PuzzleSolver.Puzzle.CheckRow0 | puzzle.py:297-316 | true exactly when the blank is at (0, c), rows below 1 are solved and row 1 is solved from column c on |
| PuzzleSolver.Puzzle.CheckRow1 | puzzle.py:318-333 | true exactly when the blank is at (1, c) and the lower-row invariant holds there |
| PuzzleSolver.Puzzle.UpdatePuzzle | puzzle.py:97-128 | the new grid is the replay of the string from the blank's cell; `Applied` exactly when the whole string replays, otherwise the index and reason of the first illegal character |
| PuzzleSolver.Puzzle.MoveTargetDownTo | puzzle.py:674-687 | the tile reaches the given row in its column with the blank left of it; the returned string replays to the new grid; only the walked box changes |
| PuzzleSolver.Puzzle.MoveTargetDown | puzzle.py:601-614 | the same, walking down to the tile's own target row |
| PuzzleSolver.Puzzle.MoveTargetRightTo | puzzle.py:689-702 | the tile reaches the given column in its row with the blank left of it; the returned string replays to the new grid; only the walked box changes |
| PuzzleSolver.Puzzle.MoveTargetRight | puzzle.py:616-633 | the same with "drrul" in row 0 and "urrdl" below it |
| PuzzleSolver.Puzzle.MoveTargetLeft | puzzle.py:635-661 | the tile reaches the target column (or stays if not right of it) with the blank left of it; the returned string, corrected as under Findings, replays to the new grid |
| PuzzleSolver.Puzzle.ApproachRoundStep | puzzle.py:557-570 | the round's vertical move and then its horizontal move, each applied by its own replay, leave the grid where replaying both together does |
| PuzzleSolver.Puzzle.ZeroToTarget | puzzle.py:545-599 | the returned string replays fully; it ends with the blank left of the tile, or above it when the tile is home; cells after the blank's start and right of the region are unchanged |
| PuzzleSolver.Puzzle.MoveTargetHome | puzzle.py:184-192 | the three walks bring the tile to (r, c) with the blank left of or above it, leaving every cell after (r, c) unchanged |
| PuzzleSolver.Puzzle.SolveInteriorTile | puzzle.py:156-210 | from the lower-row invariant at (r, c), the returned moves replay to a grid with the invariant at (r, c-1) |
| PuzzleSolver.Puzzle.SolveRow1Tile | puzzle.py:396-425 | from Row1Ready at c, the returned moves replay to a grid with Row0Ready at c |
| PuzzleSolver.Puzzle.MoveTargetIntoRow0 | puzzle.py:361-389 | once the approach has left the blank left of the tile, the walks down to row 1 and right to column c-1 and the 2×3 string put the tile at (0, c) with the blank at (1, c-1), leaving every cell after (1, c) unchanged; the "ld" for a blank above the tile is proved never to run |
| PuzzleSolver.Puzzle.SolveRow0Tile | puzzle.py:335-394 | from Row0Ready at c, the returned moves replay to a grid with Row1Ready at c-1 |
| PuzzleSolver.Puzzle.MoveTargetIntoCol0 | puzzle.py:226-279 | the loop and the 3×2 string put the tile at (r, 0) with the blank at (r-1, 1), leaving every cell after (r, 0) unchanged |
| PuzzleSolver.Puzzle.SolveCol0Tile | puzzle.py:212-292 | from the lower-row invariant at (r, 0), the returned moves replay to a grid with the invariant at (r-1, w-1) |
| PuzzleSolver.Puzzle.Solve2x2 | puzzle.py:430-455 | the result is "lu" and at most three "rdlu"; no shorter such string solves the block; the flag is the closing check; the moves replay fully and fix every cell outside the block |
| PuzzleSolver.Puzzle.EndRoundStep | puzzle.py:713-721 | one round appends "d" unless in the last row and "r" unless in the last column |
| PuzzleSolver.Puzzle.ZeroToEnd | puzzle.py:704-726 | the result is only d's and r's, as many as the blank's distance to the last cell; it replays fully and leaves the blank at (height-1, width-1) |
| PuzzleSolver.Puzzle.SolveStage | puzzle.py:475-491 | one phase, chosen by the blank's cell, replays fully into a stage of lower rank |
| PuzzleSolver.Puzzle.PhaseRound | puzzle.py:475-493 | one pass of the loop body ends in the top-left block or at a lower-ranked stage |
| PuzzleSolver.Puzzle.SolvePuzzle | puzzle.py:457-496 | the returned moves replay fully from the blank's cell to the blank at (0, 0); every cell outside the top-left 2×2 block ends solved; the flag holds exactly when the whole grid is solved |
| PuzzleFindings.LeftRecorded | puzzle.py:649-654 | the recorded round has the applied macro's length and equals it exactly when the blank is in row 0 |
| PuzzleFindings.LeftRecordedKeepsTile | puzzle.py:650-651 | replaying the recorded "ldrul" leaves the tile where it was, where the applied "rulld" moves it left |
| PuzzleFindings.LeftRecordedStops | puzzle.py:650-651 | in the last row the recorded "ldrul" cannot be replayed: its second move leaves the grid |
| PuzzleFindings.LeftRecordedExample | puzzle.py:647-654 | on the 2×3 board [[1,2,3],[5,0,4]] the applied string brings tile 4 home, but the recorded one stops |
| PuzzleFindings.Row1CheckAdmits | puzzle.py:318-333 | the 2×4 board [[1,2,4,6],[3,5,0,7]] passes the row-1 check at column 2, yet its tile for (1, 2) sits in row 0 right of the column |
| PuzzleFindings.Row0CheckAdmits | puzzle.py:297-316 | the 2×4 board [[1,3,0,2],[4,5,6,7]] passes the row-0 check at column 2, yet its tile for (0, 2) sits right of the column |
| PuzzleFindings.Row1PhaseStops | puzzle.py:396-412 | on the board Row1CheckAdmits lets through, the row-1 phase's moves "url", "druld" and "urrdl" stop at move 10, off the grid |
| PuzzleFindings.Row0PhaseStops | puzzle.py:335-374 | on the board Row0CheckAdmits lets through, the row-0 phase's moves "ld", "urr" and "druld" stop at move 6, off the grid |
| PuzzleExamples.LowerRowSmallExamples | testsuite.py:15-28 | of the four 2×2 boards, only the solved one satisfies the lower-row invariant at (0, 0) |
| PuzzleExamples.LowerRowLargeExample | testsuite.py:31-32 | the 4×4 board satisfies the lower-row invariant at (2, 2) |
| PuzzleExamples.InteriorTileReplay | testsuite.py:45-47 | "uulddruld" replays fully on [[4,3,8],[1,2,5],[6,7,0]] to [[4,2,3],[1,5,7],[6,0,8]] |
| PuzzleExamples.InteriorTileBefore | testsuite.py:45-46 | that board satisfies the lower-row invariant at (2, 2) |
| PuzzleExamples.InteriorTileAfter | testsuite.py:45-47 | the board it leaves satisfies the invariant at (2, 1) |
| PuzzleExamples.InteriorTileExample | testsuite.py:44-47 | the expected moves take the lower-row invariant at (2, 2) to the invariant at (2, 1) |
| PuzzleExamples.Row1TileReplayPart3 | testsuite.py:144-145 | on the board the first four expected moves of the row-1 test leave, the fifth ("u") pushes tile 6 down to its home (1, 2) |
| PuzzleExamples.Row1TileReplay | testsuite.py:144-145 | all of "uldruldur" replays fully, the last four restoring the board |
| PuzzleExamples.Row1InvariantExample | testsuite.py:116-117 | the row-1 test board satisfies the row-1 invariant at column 2 |
| PuzzleExamples.Row0InvariantExample | testsuite.py:130-131 | the row-0 test board satisfies the row-0 invariant at column 2 |
| PuzzleExamples.Row1TileExample | testsuite.py:116-145 | the row-1 test's expected moves take the row-1 board to exactly the row-0 board |

## Left out

- The GUI (`poc_fifteen_gui`, puzzle.py:7, 728-730) and `__str__` (puzzle.py:31-40) are display code.
- `get_height` and `get_width` (puzzle.py:45-57) are the class's `height` and `width` constants.
- The test harness around `testsuite.py` is not modelled. Its longer solver tests are not replayed as examples, because each replay is a concrete unfolding of 20 to 40 moves. These are the column-0 and row-0 tiles, the other interior boards, and the full `solve_puzzle` boards.
- Permutation parity and solvability are not modelled. Half of all boards cannot be solved; the 2×2 phase then fails its closing check.
- PuzzleSolver.Puzzle.Solve2x2: returns the closing check's outcome as a flag instead of failing an assertion.
- PuzzleSolver.Puzzle.SolvePuzzle: requires a permutation grid of at least 2×2. It ensures every cell outside the top-left 2×2 block solved, and reports through the flag whether the block is solved; the source asserts the block solved. Boards with one row or one column are not modelled.
- PuzzleSolver.Puzzle.SolveRow1Tile: requires the row-1 check strengthened by "row 0 solved right of the column" (see Findings). SolvePuzzle always establishes that.
- PuzzleSolver.Puzzle.SolveRow0Tile: requires the row-0 check strengthened in the same way.
- PuzzleSolver.Puzzle.MoveTargetLeft: returns the moves it applies, not the string the source records (see Findings).
- PuzzleSolver.Puzzle.SolveInteriorTile: requires the grid to be a permutation, which the source assumes without checking. The same holds for every solver and walk.
- PuzzleSolver.Puzzle.CheckLowerRow: requires a blank on the grid, since the source fails an assertion in `current_position` otherwise. CheckRow0 and CheckRow1 require the same.
- PuzzleSolver.Puzzle.CheckRow0: also requires a second row when the blank is in row 0, since the source would index past the grid.
- The solver methods take the tile's and the blank's current cells as ghost parameters so that their contracts can name them. The code still finds both by scanning, as the source does.
- The no-op check at puzzle.py:383-385 has no effect and is omitted.
- PuzzleSolver.Puzzle.MoveTargetHome, SolveInteriorTile and SolvePuzzle: the strings they return differ from the source's only where the leftward walk runs below row 0. There each round appears as the applied "rulld" where the source records "ldrul" (see MoveTargetLeft and Findings).
- The "ld" step of the row-0 phase for a blank above the tile (puzzle.py:364-367) is omitted. It is unreachable: after `_zero_to_target` the blank is left of the tile, and MoveTargetIntoRow0 proves that branch never runs.
- The tests before the row-0 phase's two walks (puzzle.py:372-373 and 378-380) are not separate tests. Each walk's loop test is the same condition there, so a walk whose test fails applies no move and appends nothing.
- ZeroToTarget and ZeroToEnd run each round of their loops through the helpers ApproachRoundStep and EndRoundStep. ApproachRoundStep applies the vertical and the horizontal move by two replays, as the source does.
- The loop body of `solve_puzzle` is split into SolveStage (one phase) and PhaseRound (one pass). `_solved_2x2` is the predicate TwoByTwoSolved.
- The repositioning branches of the column-0 loop (puzzle.py:239-257) are omitted. They are unreachable: after `_zero_to_target` the blank is always left of the tile, and the model proves they never run.
- Python list aliasing is not modelled: `clone` and the constructor copy numbers into a grid that is a value.
- Python's unbounded integers match Dafny's, so there is no wrap-around to model.

## Findings

| source | as written | input that shows it | evidently intended | confidence | as-written member | corrected member |
|---|---|---|---|---|---|---|
| puzzle.py:650-651 | the leftward walk applies "rulld" but appends "ldrul" to its result | 2×3 board [[1,2,3],[5,0,4]] with the tile for (1, 1) at (1, 2): replaying the recorded string stops at its second move, while the applied one brings the tile home | append the string that was applied, so the result replays to the new grid | high, not executed | PuzzleFindings.LeftRecordedExample | PuzzleSolver.Puzzle.MoveTargetLeft |
| puzzle.py:318-333 | `row1_invariant(j)` does not check that row 0 is solved right of column j, and neither does `row0_invariant(j)` (puzzle.py:297-316) | 2×4 board [[1,2,4,6],[3,5,0,7]] passes `row1_invariant(2)` with the tile for (1, 2) at (0, 3); the phase then applies "url", "druld" and "urrdl", whose third move leaves the grid at move 10 | the invariant also requires row 0 solved right of column j, which is what the row phases need and what the solver maintains | high, not executed | PuzzleFindings.Row1PhaseStops | PuzzleSolver.Puzzle.SolveRow1Tile |
