# 15 puzzle: a verified model of the game logic in `game.js`

The game is a 4x4 sliding-tile puzzle. The board is a row-major array of 16
cells holding the tiles 1..15 and the blank `0`. A tile next to the blank can
slide into it. A new game is a random Fisher–Yates shuffle of the solved board,
redrawn until the inversion-parity test says it is solvable and it is not solved
already. The page keeps a move counter, a stack of board snapshots for undo,
and a clock that starts on the first move and stops when the board is solved.
Clicks, the arrow/WASD keys and swipes pick the tile to move.

The model has seven modules:

- `Wrappers` (`wrappers.dfy`): `Option`, the model's `null`.
- `Board` (`board.dfy`): `idx`, `findZero`, `isSolved`, `canMove`, `swap`, and
  the board part of a move as a function on `seq<int>`. The predicate `IsBoard`
  says a sequence is a permutation of 0..15.
- `Solvability` (`solvability.dfy`):
  - `countInversions` as its two nested loops;
  - `rowFromBottomOfZero` and `isSolvable`;
  - the parity theory showing that every legal move keeps the test's outcome.
- `Shuffle` (`shuffle.dfy`): `shuffledSolvable` as an in-place loop on an
  `array`, specified by pure functions over the random choices.
- `Clock` (`clock.dfy`):
  - `formatTime`;
  - a `Timer` class for `startTimer`/`stopTimer`/`resetTimer`.
- `Input` (`input.dfy`): the target computations of the `keydown` and
  `touchend` handlers.
- `Session` (`session.dfy`):
  - the page state as a class `Game` (board, moves, undo stack, timer);
  - `moveAtIndex`, `newGame`, the undo button handler, and the click, key and
    swipe handlers.

Modelling notes:

- Boards are values (`seq<int>`), so the snapshot `clone(board)` pushes can never
  alias the live board. The field is reassigned where the source swaps in place.
  Only `shuffledSolvable` keeps its `array`.
- JavaScript's `Math.floor(i / N)` is Dafny's `/` for a positive divisor.
  JavaScript's `%` takes the sign of the dividend, so both of its uses are
  modelled by `Board.JsRem`: the column `i % N`, which matters when `indexOf`
  returns -1, and the parity test `(...) % 2 === 1` of `isSolvable`, where a
  negative sum (possible only for arrays of 21 or more cells with the blank at
  index 20 or later) gives -1 and fails the test.
- The inner loop of `countInversions` is the method `Solvability.CountAfter`,
  and one iteration of the do-while of `shuffledSolvable` is
  `Shuffle.ShuffleRound`. Each is still a loop or a step on the same state,
  split off so that each proof stays small.
- `Math.random()` becomes an input. `rounds` holds one sequence of 15 choices per
  iteration of the retry loop; the k-th choice is the `j` drawn for
  `i = 15 - k`. When the rounds run out, `ShuffledSolvable` returns `None`.
  For this reason the `Game` constructor and `NewGame` require the supplied
  rounds to contain an accepted shuffle.
- `performance.now()` becomes a parameter `now` in whole milliseconds. The clock
  is assumed not to run backwards (`Timer.ClockOk`).
- `render()` changes only one piece of state: it stops the clock when the board
  is solved. `Game.Render` models exactly that.
- Undo decrements the move counter (never below zero), as the code does. Because
  every handler records a snapshot, `Game.Valid` keeps
  `|undoStack| <= moves`. The handlers preserve `moves == |undoStack|`.
- The parity target is "odd" for a blank row counted 1-based from the bottom.
  `Solvability.SolvedIsSolvable` and `Solvability.MovePreservesSolvable` show
  that this choice agrees with the boards reachable from the solved board.
- `moveAtIndex` requires `0 <= i < 16`. `canMove` does no bounds check: index
  16 with the blank at 12, or -4 with the blank at 0, would pass. Every caller
  passes an index on the grid (`Input.KeyTargetIsLegal`,
  `Input.SwipeTargetIsLegal`, and cell indices for clicks).

## Model

| member | source | states |
|---|---|---|
| Board.JsRem | game.js:125 | JavaScript's `%`: a = n * q + r with q the quotient rounded toward zero, and the remainder lies strictly between -n and n with the sign of the dividend |
| Board.Row | game.js:125 | `Math.floor(i / N)`: the row r with r * N <= i < r * N + N, in 0..3 for a cell index |
| Board.Col | game.js:125 | `i % N`: strictly between -4 and 4; for i >= 0 the column with i == row * N + column and column >= 0; for i < 0 not positive |
| Board.IdxRowCol | game.js:88 | on the grid, `idx(r, c)` is a cell index and row/column recover r and c |
| Board.IndexOf | game.js:124 | `indexOf`: -1 exactly when the value is absent, otherwise the first index holding it |
| Board.FindZero | game.js:123-126 | when a blank exists, the position holds 0, no earlier cell does, and the column is in 0..3 with `idx(r, c) == i`; without a blank it is (-1, -1, -1) |
| Board.BlankUnique | game.js:124 | on a permutation board, `findZero` finds the only cell holding 0 |
| Board.GoalIsBoard | game.js:156 | the starting array 1..15, 0 is a permutation board, is solved, and has its blank at index 15 |
| Board.IsSolved | game.js:119-122 | the early-return loop answers true exactly when the first 16 cells read 1, ..., 15, 0 |
| Board.SolvedBoardIsGoal | game.js:119-122 | on a permutation board, `isSolved` holds exactly for the board [1..15, 0] |
| Board.CanMove | game.js:127-132 | `canMove` never accepts the blank itself, and an accepted index differs from the blank's by -4, -1, 1 or 4 |
| Board.CanMoveIffAdjacent | game.js:127-132 | on a board, `canMove` holds exactly for the up/down/left/right grid neighbours of the blank, never for the blank itself |
| Board.NoBlankNoMove | game.js:127-132 | on an array without a blank (`board = []` before the first game) no index is movable |
| Board.Swap | game.js:133 | `swap`: the two cells exchange their values and every other cell is unchanged |
| Board.SwapPermutes | game.js:133 | a swap keeps the same values (the multisets agree) |
| Board.SwapInvolution | game.js:133 | swapping twice restores the array, and the order of the indices does not matter |
| Board.SwapPreservesBoard | game.js:133 | a swap of two cells keeps a board a permutation of 0..15 |
| Board.Move | game.js:204-207 | the board part of `moveAtIndex` yields a permutation board again |
| Board.MoveSpec | game.js:204-207 | a legal move puts the tile where the blank was and the blank at i and leaves the other 14 cells alone; an illegal move changes nothing |
| Board.MoveUndo | game.js:204-207 | after a legal move the old blank cell is movable, and moving it restores the original board |
| Board.TranspositionNotSolved | game.js:119-122 | no single swap of two distinct cells of the solved board is solved |
| Solvability.NonZeroMembers | game.js:136 | the filter keeps exactly the values other than 0 |
| Solvability.CountBelowExtremes | game.js:139-141 | the count of later elements below x is 0 exactly when none is below x, and all of them exactly when every one is |
| Solvability.CountInversions | game.js:135-144 | the outer loop returns the number of pairs i < j with a[i] > a[j] among the non-blank cells |
| Solvability.CountAfter | game.js:139-141 | the inner loop counts the elements after a[i] that are smaller than a[i] |
| Solvability.RowFromBottomOfZero | game.js:145-149 | on a board the result is in 1..4 and equals 4 minus the blank's row; with no blank it is 5 |
| Solvability.IsSolvable | game.js:151-153 | the test passes exactly when the inversions plus the row term is non-negative and odd (JavaScript's `%` gives -1 for a negative odd sum) |
| Solvability.IsSolvableOnBoard | game.js:151-153 | on a board the test is the parity of the inversions plus 4 minus the blank's row |
| Solvability.ComputeIsSolvable | game.js:151-153 | `isSolvable` computed through the counting loops gives the same answer as the test |
| Solvability.InversionsAppend | game.js:135-144 | the inversions of a concatenation are those of each part plus the cross pairs |
| Solvability.RotateParity | game.js:135-144 | moving a tile past three others changes the inversion count by an odd amount |
| Solvability.VerticalMoveFlipsInversions | game.js:135-144 | a vertical move changes the inversion count of the tiles by an odd amount |
| Solvability.SideMoveKeepsTiles | game.js:136 | a horizontal move leaves the non-blank cells in the same reading order, so the inversions are unchanged |
| Solvability.RowAfterMove | game.js:145-149 | a vertical move changes the blank's row by exactly one; a horizontal move keeps it |
| Solvability.DownMoveKeepsParity | game.js:151-153 | trading the blank with the tile below keeps the outcome of `isSolvable` |
| Solvability.SideMoveKeepsParity | game.js:151-153 | trading the blank with a tile beside it in the same row keeps the outcome of `isSolvable` |
| Solvability.MovePreservesSolvable | game.js:151-153 | every legal move keeps the outcome of `isSolvable`, in both directions |
| Solvability.AscendingHasNoInversions | game.js:135-144 | a strictly ascending sequence has no inversions |
| Solvability.SolvedIsSolvable | game.js:151-153 | the solved board passes the test |
| Solvability.GoalIsSolvable | game.js:151-153 | the solved board has no inversions and its blank is in the bottom row (term 1), so it passes the test |
| Solvability.PlayPreservesSolvable | game.js:151-153 | any sequence of taps keeps the outcome of the test |
| Solvability.ReachableIsSolvable | game.js:151-153 | every board reached from the solved board by taps passes the test |
| Shuffle.FisherYatesPermutes | game.js:158-161 | a Fisher–Yates pass keeps the same values |
| Shuffle.FisherYatesPreservesBoard | game.js:158-161 | a Fisher–Yates pass with choices 0 <= j <= i keeps a permutation of 0..15 |
| Shuffle.ShuffleFromSound | game.js:155-164 | any answer of the retry loop is a permutation board that is solvable and not solved |
| Shuffle.SwapCells | game.js:133 | the in-place swap on an array changes the contents exactly as `Swap` does |
| Shuffle.FisherYatesPass | game.js:158-161 | the in-place loop leaves the array holding the Fisher–Yates pass of its old contents |
| Shuffle.ShuffleRound | game.js:157-162 | one iteration of the do-while leaves the array holding the pass of its old contents, and accepts exactly when the result is solvable and not solved |
| Shuffle.NewGoalArray | game.js:156 | the fresh starting array holds 1..15, 0 |
| Shuffle.ShuffleUntilSolvable | game.js:157-163 | the retry loop on the array returns the first accepted shuffle of its old contents |
| Shuffle.ShuffledSolvable | game.js:155-164 | `shuffledSolvable` returns the retry loop's answer from 1..15, 0, and any answer is a permutation, solvable and not solved |
| Clock.DecimalString | game.js:92-93 | `String(n)`: at least one digit, only digits, no leading zero, one digit exactly below 10 and at most two below 100 |
| Clock.PadStart2 | game.js:92-93 | `padStart(2, '0')`: a string of two or more characters is unchanged; a shorter one is prefixed with zeros up to length 2, ending in the original |
| Clock.DecimalStringValue | game.js:92-93 | the decimal spelling denotes n |
| Clock.PadStart2Value | game.js:92-93 | `padStart(2, '0')` keeps the digits' value and gives at least two of them |
| Clock.FormatTimeReadsBack | game.js:90-95 | the display is minutes (two or more digits), a colon, and exactly two digits of seconds below 60, which read back as the elapsed whole seconds |
| Clock.FormatTime | game.js:90-95 | the display has at least five characters with the colon third from the end, and exactly five below 100 minutes |
| Clock.FormatTimeZero | game.js:116 | the "00:00" written on reset is the display of zero elapsed time |
| Clock.Timer.Elapsed | game.js:100-103 | the time shown is at least the banked time and equals it while stopped |
| Clock.Timer.constructor | game.js:60-62 | no interval, no start time, nothing banked |
| Clock.Timer.Start | game.js:97-104 | a running timer is unchanged; otherwise a run starts at `now`; the elapsed time shown is the same before and after |
| Clock.Timer.Stop | game.js:105-111 | the timer stops, banking the elapsed time shown at `now` |
| Clock.Timer.Reset | game.js:112-117 | the timer stops with no start time and zero banked time |
| Clock.AccumulatesRuns | game.js:97-111 | two runs separated by a pause bank the sum of their lengths |
| Input.TileBehind | game.js:226-231 | the cell one step against direction d exists exactly when it is on the grid; it is a cell index whose row and column are that step away, and for a blank on the grid it is at Manhattan distance 1, the distance `canMove` accepts |
| Input.KeyTarget | game.js:224-233 | for a blank on the grid, each key's target is the neighbour on the opposite side of the key's direction, and none at the edge or for any other key |
| Input.SwipeDirection | game.js:247-256 | a swipe has no direction exactly when both offsets are below 24 pixels; Left or Right exactly when the horizontal offset is strictly larger and reaches 24 in that sign; Up or Down exactly when the vertical offset is at least as large and reaches 24 in that sign |
| Input.SwipeTarget | game.js:243-259 | for a blank on the grid, a swipe's target is the neighbour on the opposite side of its direction, and none at the edge or for a short swipe |
| Input.ShortSwipeIgnored | game.js:249 | a swipe whose offsets are both below 24 pixels selects nothing |
| Input.BlankInGrid | game.js:123-126 | on a board the blank's row and column are on the grid |
| Input.TileBehindIsLegal | game.js:226-231 | any neighbour behind the blank holds a tile that `canMove` accepts |
| Input.LegalTileIsBehind | game.js:127-132 | every tile `canMove` accepts is behind the blank in some direction, so each legal move has a key |
| Input.KeyTargetIsLegal | game.js:224-233 | every key target is a cell index that `canMove` accepts |
| Input.SwipeTargetIsLegal | game.js:243-259 | every swipe target is a cell index that `canMove` accepts |
| Session.Game.constructor | game.js:57-63 | page load followed by `init()`'s `newGame()`: a playable shuffled board, no moves, no history, a reset clock |
| Session.Game.Render | game.js:189-194 | a solved board stops the clock, banking the time shown; otherwise the timer is untouched |
| Session.Game.NewGame | game.js:262-268 | the board becomes the shuffle's answer, with zero moves, an empty undo stack and a reset clock, and the game invariant holds |
| Session.Game.MoveAtIndex | game.js:203-213 | an illegal move changes nothing; a legal one applies `Move`, counts one move, pushes the old board if asked, keeps the elapsed time shown, and leaves the clock running exactly when the board is not solved |
| Session.Game.Undo | game.js:274-282 | an empty stack changes nothing; otherwise the last snapshot becomes the board, the stack shrinks by one, the move count drops by one (but not below zero), and a solved board stops the clock, banking the time shown |
| Session.Game.OnClick | game.js:216-221 | clicking the blank changes neither board, stack, move count nor timer; clicking a tile is `moveAtIndex(i, true)`: one more move, a snapshot, and the clock running exactly when the board is not solved |
| Session.Game.OnKey | game.js:224-233 | a key moves its target, with a snapshot and one more move, exactly when it has one; otherwise board, stack, move count and timer are unchanged |
| Session.Game.OnSwipe | game.js:243-259 | a swipe moves its target, with a snapshot and one more move, exactly when it has one; otherwise board, stack, move count and timer are unchanged |
| Session.MoveThenUndo | game.js:203-213 | a recorded move followed by undo restores the board, the undo stack and the move count |

## Left out

- Rendering, the DOM, the language switch (`applyLang`, `texts`), the background colours (`randomBackground`), sound (`playSE`), and the check button's animation and win banner. None of these change game state.
- The 200 ms interval that refreshes the display. What it would show at time `now` is `FormatTime(Elapsed(now))`.
- `performance.now()` returns fractional milliseconds. The model uses whole milliseconds and assumes the clock never goes backwards.
- `e.key.toLowerCase()`: keys arrive already lower-cased. Touch coordinates arrive as whole-pixel offsets `dx`, `dy`. The `touchstart` bookkeeping (`touchStart` set or cleared) is not modelled.
- Clicks on anything other than a grid cell are not modelled; `OnClick` receives a cell index.
- `Shuffle.ShuffledSolvable`: the retry loop is bounded by the random choices supplied. The source would keep drawing until a round succeeds, which terminates with probability 1; running out of choices gives `None`.
- `Session.Game.NewGame`: requires the supplied choices to contain an accepted round. This stands in for the termination of the unbounded retry loop.
- Saving and loading games: `game.js` has no persistence.
