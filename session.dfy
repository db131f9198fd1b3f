/**
 * The page's game state and the operations that change it: `moveAtIndex`, the
 * undo button, `newGame`, and the click, key and swipe handlers that funnel into
 * `moveAtIndex`.
 */
module Session {
  import opened Wrappers
  import opened Board
  import opened Solvability
  import opened Shuffle
  import opened Clock
  import opened Input

  /** A board a game can be in: a permutation of 0..15 that passes the parity test. */
  predicate Playable(b: seq<int>) {
    IsBoard(b) && IsSolvable(b)
  }

  /** The module-level `board`, `moves` and `undoStack`, and the timer state. */
  class Game {
    var board: seq<int>
    var moves: int
    var undoStack: seq<seq<int>>
    const timer: Timer

    /**
     * The board and every snapshot on the undo stack are playable, and there are
     * never more snapshots than moves counted.
     */
    ghost predicate Valid()
      reads this, timer
    {
      && timer.Valid()
      && Playable(board)
      && (forall k :: 0 <= k < |undoStack| ==> Playable(undoStack[k]))
      && 0 <= |undoStack| <= moves
    }

    /**
     * Page load: the empty state, then `init()`'s first `newGame()`. The random
     * draws in `rounds` must include a round that the retry loop accepts.
     */
    constructor(rounds: seq<seq<int>>, now: int)
      requires ValidRounds(rounds) && ShuffleFrom(Goal, rounds).Some?
      ensures Valid() && fresh(timer)
      ensures board == ShuffleFrom(Goal, rounds).value && moves == 0 && undoStack == []
      ensures !timer.running && timer.startAt == None && timer.elapsedMs == 0
    {
      board := [];
      moves := 0;
      undoStack := [];
      timer := new Timer();
      new;
      NewGame(rounds, now);
    }

    /** The part of `render()` that changes state: a solved board stops the clock. */
    method Render(now: int)
      requires timer.Valid() && timer.ClockOk(now)
      modifies timer
      ensures timer.Valid() && timer.ClockOk(now)
      ensures Solved(board) ==> !timer.running && timer.elapsedMs == old(timer.Elapsed(now))
      ensures !Solved(board) ==> unchanged(timer)
    {
      var solved := IsSolved(board);
      if solved {
        timer.Stop(now);
      }
    }

    /** `newGame()`: a fresh shuffled board, no moves, no undo history, the clock reset. */
    method NewGame(rounds: seq<seq<int>>, now: int)
      requires timer.Valid() && timer.ClockOk(now)
      requires ValidRounds(rounds) && ShuffleFrom(Goal, rounds).Some?
      modifies this, timer
      ensures Valid()
      ensures board == ShuffleFrom(Goal, rounds).value && moves == 0 && undoStack == []
      ensures !timer.running && timer.startAt == None && timer.elapsedMs == 0
    {
      var r := ShuffledSolvable(rounds);
      assert Playable(r.value);
      board := r.value;
      moves := 0;
      undoStack := [];
      timer.Reset(now);
      Render(now);
    }

    /**
     * `moveAtIndex(i, pushUndo)`: an illegal move changes nothing; a legal one slides
     * the tile into the blank, counts the move, snapshots the old board when asked,
     * starts the clock, and stops it again if the board is now solved.
     */
    method MoveAtIndex(i: int, pushUndo: bool, now: int) returns (moved: bool)
      requires Valid() && 0 <= i < Size && timer.ClockOk(now)
      modifies this, timer
      ensures Valid() && timer.ClockOk(now)
      ensures moved == CanMove(old(board), i)
      ensures !moved ==>
        board == old(board) && moves == old(moves) && undoStack == old(undoStack) && unchanged(timer)
      ensures moved ==> board == Move(old(board), i) && moves == old(moves) + 1
      ensures moved && pushUndo ==> undoStack == old(undoStack) + [old(board)]
      ensures moved && !pushUndo ==> undoStack == old(undoStack)
      ensures moved ==> timer.running == !Solved(board) && timer.Elapsed(now) == old(timer.Elapsed(now))
    {
      if !CanMove(board, i) {
        return false;
      }
      MovePreservesSolvable(board, i);
      if pushUndo {
        undoStack := undoStack + [board];
      }
      var zi := FindZero(board).i;
      board := Swap(board, i, zi);
      moves := moves + 1;
      if !timer.running {
        timer.Start(now);
      }
      Render(now);
      return true;
    }

    /**
     * The undo button: with an empty stack nothing happens; otherwise the last
     * snapshot becomes the board, the move count drops by one (never below zero),
     * and a board that is solved again stops the clock.
     */
    method Undo(now: int)
      requires Valid() && timer.ClockOk(now)
      modifies this, timer
      ensures Valid() && timer.ClockOk(now)
      ensures old(undoStack) == [] ==>
        board == old(board) && moves == old(moves) && undoStack == [] && unchanged(timer)
      ensures old(undoStack) != [] ==>
        && board == old(undoStack[|undoStack| - 1])
        && undoStack == old(undoStack[..|undoStack| - 1])
        && moves == (if old(moves) > 0 then old(moves) - 1 else 0)
      ensures old(undoStack) != [] && Solved(board) ==>
        !timer.running && timer.elapsedMs == old(timer.Elapsed(now))
      ensures old(undoStack) != [] && !Solved(board) ==> unchanged(timer)
    {
      if undoStack == [] {
        return;
      }
      var prev := undoStack[|undoStack| - 1];
      undoStack := undoStack[..|undoStack| - 1];
      board := prev;
      if moves > 0 {
        moves := moves - 1;
      }
      Render(now);
    }

    /** The grid's click handler on the cell at index i: the blank cell is ignored. */
    method OnClick(i: int, now: int) returns (moved: bool)
      requires Valid() && 0 <= i < Size && timer.ClockOk(now)
      modifies this, timer
      ensures Valid() && timer.ClockOk(now)
      ensures moved == (old(board)[i] != 0 && CanMove(old(board), i))
      ensures moved ==> board == Move(old(board), i) && undoStack == old(undoStack) + [old(board)]
      ensures !moved ==> board == old(board) && undoStack == old(undoStack)
      ensures moves == old(moves) + (if moved then 1 else 0)
      ensures !moved ==> unchanged(timer)
      ensures moved ==> timer.running == !Solved(board) && timer.Elapsed(now) == old(timer.Elapsed(now))
      ensures old(moves) == old(|undoStack|) ==> moves == |undoStack|
    {
      if board[i] == 0 {
        return false;
      }
      moved := MoveAtIndex(i, true, now);
    }

    /** The `keydown` handler: the key's target, when there is one, is moved. */
    method OnKey(key: string, now: int) returns (moved: bool)
      requires Valid() && timer.ClockOk(now)
      modifies this, timer
      ensures Valid() && timer.ClockOk(now)
      ensures var z := FindZero(old(board));
        && moved == KeyTarget(key, z.r, z.c).Some?
        && (moved ==> board == Move(old(board), KeyTarget(key, z.r, z.c).value)
                      && undoStack == old(undoStack) + [old(board)])
      ensures !moved ==> board == old(board) && undoStack == old(undoStack)
      ensures moves == old(moves) + (if moved then 1 else 0)
      ensures !moved ==> unchanged(timer)
      ensures moved ==> timer.running == !Solved(board) && timer.Elapsed(now) == old(timer.Elapsed(now))
      ensures old(moves) == old(|undoStack|) ==> moves == |undoStack|
    {
      var z := FindZero(board);
      var target := KeyTarget(key, z.r, z.c);
      KeyTargetIsLegal(board, key);
      moved := false;
      if target.Some? {
        moved := MoveAtIndex(target.value, true, now);
      }
    }

    /** The `touchend` handler for a swipe by (dx, dy) pixels. */
    method OnSwipe(dx: int, dy: int, now: int) returns (moved: bool)
      requires Valid() && timer.ClockOk(now)
      modifies this, timer
      ensures Valid() && timer.ClockOk(now)
      ensures var z := FindZero(old(board));
        && moved == SwipeTarget(dx, dy, z.r, z.c).Some?
        && (moved ==> board == Move(old(board), SwipeTarget(dx, dy, z.r, z.c).value)
                      && undoStack == old(undoStack) + [old(board)])
      ensures !moved ==> board == old(board) && undoStack == old(undoStack)
      ensures moves == old(moves) + (if moved then 1 else 0)
      ensures !moved ==> unchanged(timer)
      ensures moved ==> timer.running == !Solved(board) && timer.Elapsed(now) == old(timer.Elapsed(now))
      ensures old(moves) == old(|undoStack|) ==> moves == |undoStack|
    {
      var z := FindZero(board);
      var target := SwipeTarget(dx, dy, z.r, z.c);
      SwipeTargetIsLegal(board, dx, dy);
      moved := false;
      if target.Some? {
        moved := MoveAtIndex(target.value, true, now);
      }
    }
  }

  /** A recorded move followed by undo puts back the board, the history and the count. */
  method MoveThenUndo(g: Game, i: int, now: int)
    requires g.Valid() && 0 <= i < Size && CanMove(g.board, i) && g.timer.ClockOk(now)
    modifies g, g.timer
    ensures g.Valid()
    ensures g.board == old(g.board) && g.undoStack == old(g.undoStack) && g.moves == old(g.moves)
  {
    var moved := g.MoveAtIndex(i, true, now);
    g.Undo(now);
  }
}
