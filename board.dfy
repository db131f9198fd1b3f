/**
 * The board of the 15 puzzle: a row-major sequence of 16 cells on a 4x4 grid,
 * holding the tiles 1..15 and the blank 0.
 */
module Board {

  /** Width and height of the grid. */
  const N: int := 4
  /** Number of cells. */
  const Size: int := 16

  /** The solved board: 1, 2, ..., 15 and then the blank. */
  const Goal: seq<int> := [1, 2, 3, 4, 5, 6, 7, 8, 9, 10, 11, 12, 13, 14, 15, 0]

  function Abs(x: int): int { if x < 0 then -x else x }

  /** JavaScript's `%` on integers: the remainder carries the sign of the dividend. */
  function JsRem(a: int, n: int): (r: int)
    requires n > 0
    ensures -n < r < n
    ensures a >= 0 ==> 0 <= r
    ensures a < 0 ==> r <= 0
    ensures a == n * (if a >= 0 then a / n else -((-a) / n)) + r
  {
    if a >= 0 then a % n else -((-a) % n)
  }

  /** `Math.floor(i / N)`: Dafny's division by a positive divisor rounds down. */
  function Row(i: int): (r: int)
    ensures r * N <= i < r * N + N
    ensures 0 <= i < Size ==> 0 <= r < N
  {
    i / N
  }

  /** `i % N` with JavaScript's remainder. */
  function Col(i: int): (c: int)
    ensures -N < c < N
    ensures 0 <= i ==> 0 <= c && i == Row(i) * N + c
    ensures i < 0 ==> c <= 0
  {
    JsRem(i, N)
  }

  /** `idx(r, c)`: the index of the cell at row r, column c. */
  function Idx(r: int, c: int): int { r * N + c }

  predicate InGrid(r: int, c: int) { 0 <= r < N && 0 <= c < N }

  /** Idx and (Row, Col) are inverse to each other on the grid. */
  lemma IdxRowCol(r: int, c: int)
    requires InGrid(r, c)
    ensures 0 <= Idx(r, c) < Size
    ensures Row(Idx(r, c)) == r && Col(Idx(r, c)) == c
  {
    assert Idx(r, c) == 4 * r + c;
  }

  /** `s.indexOf(x)`: the first index holding x, or -1. */
  function IndexOf(s: seq<int>, x: int): (k: int)
    ensures -1 <= k < |s|
    ensures k == -1 <==> x !in s
    ensures 0 <= k ==> s[k] == x && x !in s[..k]
  {
    if |s| == 0 then -1
    else if s[0] == x then 0
    else
      var k := IndexOf(s[1..], x);
      assert s == [s[0]] + s[1..];
      if k == -1 then -1
      else
        assert s[..k + 1] == [s[0]] + s[1..][..k];
        k + 1
  }

  /** The position of the blank as `findZero` returns it: row, column and index. */
  datatype Pos = Pos(r: int, c: int, i: int)

  /** `findZero(arr)`. */
  function FindZero(b: seq<int>): (p: Pos)
    ensures 0 in b ==> 0 <= p.i < |b| && b[p.i] == 0 && 0 !in b[..p.i]
    ensures 0 in b ==> 0 <= p.c < N && Idx(p.r, p.c) == p.i
    ensures 0 !in b ==> p == Pos(-1, -1, -1)
  {
    var i := IndexOf(b, 0);
    assert i >= 0 ==> Idx(Row(i), Col(i)) == i;
    Pos(Row(i), Col(i), i)
  }

  /** A board is a permutation of 0..15: 16 cells, every value occurs, no value twice. */
  predicate IsBoard(b: seq<int>) {
    |b| == Size
    && (forall v :: 0 <= v < Size ==> v in b)
    && (forall k, l :: 0 <= k < l < Size ==> b[k] != b[l])
  }

  /** On a board the blank is the unique cell holding 0. */
  lemma BlankUnique(b: seq<int>, k: int)
    requires IsBoard(b) && 0 <= k < Size && b[k] == 0
    ensures FindZero(b).i == k
  {
  }

  /** What `isSolved` checks: the first 16 cells read 1, 2, ..., 15, 0. */
  predicate Solved(b: seq<int>) {
    |b| >= Size && b[..Size] == Goal
  }

  lemma GoalIsBoard()
    ensures IsBoard(Goal) && Solved(Goal) && FindZero(Goal).i == Size - 1
  {
    assert |Goal| == Size;
    forall v | 0 <= v < Size ensures v in Goal {
      if v == 0 { assert Goal[15] == v; } else { assert Goal[v - 1] == v; }
    }
    assert Goal[..Size] == Goal;
    BlankUnique(Goal, Size - 1);
  }

  /** `isSolved(arr)`: a loop with early return over the first 15 cells, then the last. */
  method IsSolved(arr: seq<int>) returns (solved: bool)
    ensures solved <==> Solved(arr)
  {
    for i := 0 to 15
      invariant forall k :: 0 <= k < i ==> k < |arr| && arr[k] == k + 1
    {
      if i >= |arr| || arr[i] != i + 1 {
        assert Size <= |arr| ==> arr[..Size][i] != Goal[i];
        return false;
      }
    }
    solved := |arr| > 15 && arr[15] == 0;
    if solved {
      assert arr[..Size] == Goal by {
        forall k | 0 <= k < Size ensures arr[..Size][k] == Goal[k] {}
      }
    } else if |arr| > 15 {
      assert arr[..Size][15] != Goal[15];
    }
  }

  /** On a board, being solved means being exactly the goal board. */
  lemma SolvedBoardIsGoal(b: seq<int>)
    requires IsBoard(b)
    ensures Solved(b) <==> b == Goal
  {
    assert b[..Size] == b;
  }

  /** `canMove(tileIndex, arr)`: the tile is at Manhattan distance 1 from the blank. */
  function CanMove(b: seq<int>, tile: int): (ok: bool)
    ensures ok ==> tile != FindZero(b).i
    ensures ok && 0 <= tile && 0 in b ==>
      var d := tile - FindZero(b).i;
      d == -N || d == -1 || d == 1 || d == N
  {
    var zi := FindZero(b).i;
    Abs(Row(zi) - Row(tile)) + Abs(Col(zi) - Col(tile)) == 1
  }

  /** The four grid neighbours of cell z, stated with index arithmetic alone. */
  predicate Adjacent(z: int, t: int) {
    (t == z - N && z >= N)
    || (t == z + N && z + N < Size)
    || (t == z - 1 && z % N != 0)
    || (t == z + 1 && z % N != N - 1)
  }

  /** On a board, a cell can move exactly when it is a grid neighbour of the blank. */
  lemma CanMoveIffAdjacent(b: seq<int>, tile: int)
    requires IsBoard(b) && 0 <= tile < Size
    ensures CanMove(b, tile) <==> Adjacent(FindZero(b).i, tile)
    ensures !CanMove(b, FindZero(b).i)
  {
    var z := FindZero(b).i;
    assert 0 in b;
    assert z == 4 * (z / 4) + z % 4;
    assert tile == 4 * (tile / 4) + tile % 4;
  }

  /** Without a blank (the empty board before the first game) no cell can move. */
  lemma NoBlankNoMove(b: seq<int>, tile: int)
    requires 0 !in b && 0 <= tile
    ensures !CanMove(b, tile)
  {
  }

  /** `swap(a, i, j)` on a value: the two cells are exchanged, nothing else moves. */
  function Swap(s: seq<int>, i: int, j: int): (r: seq<int>)
    requires 0 <= i < |s| && 0 <= j < |s|
    ensures |r| == |s| && r[i] == s[j] && r[j] == s[i]
    ensures forall k :: 0 <= k < |s| && k != i && k != j ==> r[k] == s[k]
  {
    s[i := s[j]][j := s[i]]
  }

  /** A swap rearranges the cells: the multiset of values is the same. */
  lemma SwapPermutes(s: seq<int>, i: int, j: int)
    requires 0 <= i < |s| && 0 <= j < |s|
    ensures multiset(Swap(s, i, j)) == multiset(s)
  {
  }

  /** Swapping back undoes a swap, and the order of the two indices does not matter. */
  lemma SwapInvolution(s: seq<int>, i: int, j: int)
    requires 0 <= i < |s| && 0 <= j < |s|
    ensures Swap(Swap(s, i, j), j, i) == s
    ensures Swap(s, i, j) == Swap(s, j, i)
  {
    assert Swap(Swap(s, i, j), j, i) == s;
  }

  /** Every swap of two cells keeps a board a permutation of 0..15. */
  lemma {:induction false} SwapPreservesBoard(b: seq<int>, i: int, j: int)
    requires IsBoard(b) && 0 <= i < Size && 0 <= j < Size
    ensures IsBoard(Swap(b, i, j))
  {
    var r := Swap(b, i, j);
    forall v | 0 <= v < Size ensures v in r {
      assert v in b;
      var k :| 0 <= k < Size && b[k] == v;
      var k' := if k == i then j else if k == j then i else k;
      assert r[k'] == v;
    }
    forall k, l | 0 <= k < l < Size ensures r[k] != r[l] {
      var k' := if k == i then j else if k == j then i else k;
      var l' := if l == i then j else if l == j then i else l;
      assert r[k] == b[k'] && r[l] == b[l'] && k' != l';
      if k' < l' { assert b[k'] != b[l']; } else { assert b[l'] != b[k']; }
    }
  }

  /**
   * A legal move slides the tile at i into the blank; an illegal one changes nothing
   * (the board part of `moveAtIndex`).
   */
  function Move(b: seq<int>, i: int): (r: seq<int>)
    requires IsBoard(b) && 0 <= i < Size
    ensures IsBoard(r)
  {
    if CanMove(b, i) then
      CanMoveIffAdjacent(b, i);
      SwapPreservesBoard(b, i, FindZero(b).i);
      Swap(b, i, FindZero(b).i)
    else b
  }

  /** What a move does: the blank and the tile trade places, and the result is again a board. */
  lemma MoveSpec(b: seq<int>, i: int)
    requires IsBoard(b) && 0 <= i < Size
    ensures CanMove(b, i) ==>
      var z := FindZero(b).i;
      && Move(b, i)[z] == b[i] && b[i] != 0
      && Move(b, i)[i] == 0 && FindZero(Move(b, i)).i == i
      && forall k :: 0 <= k < Size && k != i && k != z ==> Move(b, i)[k] == b[k]
    ensures !CanMove(b, i) ==> Move(b, i) == b
  {
    if CanMove(b, i) {
      var z := FindZero(b).i;
      CanMoveIffAdjacent(b, i);
      BlankUnique(Move(b, i), i);
      if i < z { assert b[i] != b[z]; } else { assert b[z] != b[i]; }
    }
  }

  /** A move is undone by moving the tile that now stands where the blank was. */
  lemma MoveUndo(b: seq<int>, i: int)
    requires IsBoard(b) && 0 <= i < Size && CanMove(b, i)
    ensures var z := FindZero(b).i;
      CanMove(Move(b, i), z) && Move(Move(b, i), z) == b
  {
    var z := FindZero(b).i;
    MoveSpec(b, i);
    CanMoveIffAdjacent(b, i);
    var b' := Move(b, i);
    CanMoveIffAdjacent(b', z);
    SwapInvolution(b, i, z);
  }

  /** No single transposition of the goal board is solved. */
  lemma TranspositionNotSolved(i: int, j: int)
    requires 0 <= i < j < Size
    ensures !Solved(Swap(Goal, i, j))
  {
    GoalIsBoard();
    NoTranspositionOfSolved(Goal, i, j);
  }

  lemma NoTranspositionOfSolved(b: seq<int>, i: int, j: int)
    requires IsBoard(b) && 0 <= i < j < Size
    ensures b[..Size] != Swap(b, i, j)[..Size]
  {
    assert Swap(b, i, j)[..Size][i] == b[j];
  }
}
