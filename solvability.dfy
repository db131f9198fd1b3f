/**
 * The parity test that decides whether a 4x4 board can be solved: with an even
 * width, a board is solvable when the number of inversions among its tiles plus
 * the blank's row counted from the bottom (1-based) is odd.
 */
module Solvability {
  import opened Board

  /** `arr.filter(x => x !== 0)`: the tiles in reading order, without the blank. */
  function NonZero(s: seq<int>): (r: seq<int>)
    ensures |r| <= |s|
  {
    if s == [] then []
    else (if s[0] != 0 then [s[0]] else []) + NonZero(s[1..])
  }

  /** The filter keeps exactly the values of s other than 0. */
  lemma {:induction false} NonZeroMembers(s: seq<int>)
    ensures forall x :: x in NonZero(s) <==> x in s && x != 0
  {
    if s != [] {
      NonZeroMembers(s[1..]);
      assert s == [s[0]] + s[1..];
    }
  }

  function Below(y: int, x: int): nat { if y < x then 1 else 0 }

  /** How many elements of t are smaller than x. */
  function CountBelow(x: int, t: seq<int>): (n: nat)
    ensures n <= |t|
  {
    if t == [] then 0 else Below(t[0], x) + CountBelow(x, t[1..])
  }

  /** CountBelow is 0 exactly when nothing in t is smaller than x, and |t| exactly when everything is. */
  lemma {:induction false} CountBelowExtremes(x: int, t: seq<int>)
    ensures CountBelow(x, t) == 0 <==> forall k :: 0 <= k < |t| ==> x <= t[k]
    ensures CountBelow(x, t) == |t| <==> forall k :: 0 <= k < |t| ==> t[k] < x
  {
    if t != [] {
      CountBelowExtremes(x, t[1..]);
      assert forall k :: 1 <= k < |t| ==> t[k] == t[1..][k - 1];
    }
  }

  /** The number of pairs i < j with s[i] > s[j]. */
  function Inversions(s: seq<int>): nat {
    if s == [] then 0 else CountBelow(s[0], s[1..]) + Inversions(s[1..])
  }

  /** The number of pairs (x in a, y in m) with x > y. */
  function Cross(a: seq<int>, m: seq<int>): nat {
    if a == [] then 0 else CountBelow(a[0], m) + Cross(a[1..], m)
  }

  /** `countInversions(arr)`: two nested loops over the filtered tiles. */
  method CountInversions(arr: seq<int>) returns (inv: int)
    ensures inv == Inversions(NonZero(arr))
  {
    var a := NonZero(arr);
    inv := 0;
    for i := 0 to |a|
      invariant inv + Inversions(a[i..]) == Inversions(a)
    {
      InversionsStep(a, i);
      var n := CountAfter(a, i);
      inv := inv + n;
    }
    assert a[|a|..] == [];
  }

  /** The inner loop of `countInversions`: the later elements smaller than a[i]. */
  method CountAfter(a: seq<int>, i: int) returns (n: int)
    requires 0 <= i < |a|
    ensures n == CountBelow(a[i], a[i + 1..])
  {
    n := 0;
    for j := i + 1 to |a|
      invariant n == CountBelow(a[i], a[i + 1..j])
    {
      CountBelowStep(a[i], a, i + 1, j);
      if a[i] > a[j] {
        n := n + 1;
      }
    }
    assert a[i + 1..|a|] == a[i + 1..];
  }

  /** The outer loop of `countInversions` peels one element off the front. */
  lemma InversionsStep(a: seq<int>, i: int)
    requires 0 <= i < |a|
    ensures Inversions(a[i..]) == CountBelow(a[i], a[i + 1..]) + Inversions(a[i + 1..])
  {
    assert a[i..][1..] == a[i + 1..];
  }

  /** The inner loop of `countInversions` extends its window by one element. */
  lemma CountBelowStep(x: int, a: seq<int>, lo: int, j: int)
    requires 0 <= lo <= j < |a|
    ensures CountBelow(x, a[lo..j + 1]) == CountBelow(x, a[lo..j]) + Below(a[j], x)
  {
    CountBelowAppend(x, a[lo..j], [a[j]]);
    assert a[lo..j + 1] == a[lo..j] + [a[j]];
    CountBelow1(x, a[j]);
  }

  /** `rowFromBottomOfZero(arr)`: the blank's row counted from the bottom, 1-based. */
  function RowFromBottomOfZero(arr: seq<int>): (k: int)
    ensures IsBoard(arr) ==> 1 <= k <= N && k == N - Row(FindZero(arr).i)
    ensures 0 !in arr ==> k == N + 1
  {
    var z := IndexOf(arr, 0);
    var r := Row(z);
    N - r
  }

  /**
   * `isSolvable(arr)`: the sum of the two terms, taken with JavaScript's `%`, is 1.
   * A negative sum (a blank at index 20 or later of a longer array) never passes.
   * On a board the test is the plain parity of the inversions plus the blank's row
   * from the bottom.
   */
  function IsSolvable(arr: seq<int>): (ok: bool)
    ensures var sum := Inversions(NonZero(arr)) + RowFromBottomOfZero(arr);
      ok <==> sum >= 0 && sum % 2 == 1
  {
    JsRem(Inversions(NonZero(arr)) + RowFromBottomOfZero(arr), 2) == 1
  }

  /** On a board the test is the parity of the inversions plus the blank's row from the bottom. */
  lemma IsSolvableOnBoard(b: seq<int>)
    requires IsBoard(b)
    ensures IsSolvable(b) <==> (Inversions(NonZero(b)) + N - Row(FindZero(b).i)) % 2 == 1
  {
  }

  /** `isSolvable(arr)` as the source computes it, through the counting loops. */
  method ComputeIsSolvable(arr: seq<int>) returns (solvable: bool)
    ensures solvable == IsSolvable(arr)
  {
    var inv := CountInversions(arr);
    solvable := JsRem(inv + RowFromBottomOfZero(arr), 2) == 1;
  }

  // ----- algebra of inversion counts -----

  lemma {:induction false} CountBelowAppend(x: int, p: seq<int>, q: seq<int>)
    ensures CountBelow(x, p + q) == CountBelow(x, p) + CountBelow(x, q)
  {
    if p == [] {
      assert p + q == q;
    } else {
      assert (p + q)[1..] == p[1..] + q;
      CountBelowAppend(x, p[1..], q);
    }
  }

  lemma {:induction false} CrossAppend(a: seq<int>, p: seq<int>, q: seq<int>)
    ensures Cross(a, p + q) == Cross(a, p) + Cross(a, q)
  {
    if a != [] {
      CountBelowAppend(a[0], p, q);
      CrossAppend(a[1..], p, q);
    }
  }

  /** Inversions of a concatenation: those inside each part plus those across. */
  lemma {:induction false} InversionsAppend(a: seq<int>, m: seq<int>)
    ensures Inversions(a + m) == Inversions(a) + Cross(a, m) + Inversions(m)
  {
    if a == [] {
      assert a + m == m;
    } else {
      assert (a + m)[0] == a[0];
      assert (a + m)[1..] == a[1..] + m;
      CountBelowAppend(a[0], a[1..], m);
      InversionsAppend(a[1..], m);
    }
  }

  lemma CountBelow1(x: int, t: int)
    ensures CountBelow(x, [t]) == Below(t, x)
  {
    assert [t][1..] == [];
  }

  lemma CountBelow3(x: int, q: int, r: int, t: int)
    ensures CountBelow(x, [q, r, t]) == Below(q, x) + Below(r, x) + Below(t, x)
  {
    assert [q, r, t][1..] == [r, t];
    assert [r, t][1..] == [t];
    CountBelow1(x, t);
    assert CountBelow(x, [r, t]) == Below(r, x) + CountBelow(x, [t]);
  }

  lemma CountBelow4(x: int, p: int, q: int, r: int, t: int)
    ensures CountBelow(x, [p, q, r, t]) == Below(p, x) + Below(q, x) + Below(r, x) + Below(t, x)
  {
    assert [p, q, r, t][1..] == [q, r, t];
    CountBelow3(x, q, r, t);
  }

  lemma Cross4(p: int, q: int, r: int, t: int, m: seq<int>)
    ensures Cross([p, q, r, t], m) == CountBelow(p, m) + CountBelow(q, m) + CountBelow(r, m) + CountBelow(t, m)
  {
    assert [p, q, r, t][1..] == [q, r, t];
    assert [q, r, t][1..] == [r, t];
    assert [r, t][1..] == [t];
    assert [t][1..] == [];
    assert Cross([t], m) == CountBelow(t, m) + Cross([], m);
    assert Cross([r, t], m) == CountBelow(r, m) + Cross([t], m);
    assert Cross([q, r, t], m) == CountBelow(q, m) + Cross([r, t], m);
  }

  lemma Inversions4(p: int, q: int, r: int, t: int)
    ensures Inversions([p, q, r, t])
         == Below(q, p) + Below(r, p) + Below(t, p) + Below(r, q) + Below(t, q) + Below(t, r)
  {
    assert [p, q, r, t][1..] == [q, r, t];
    assert [q, r, t][1..] == [r, t];
    assert [r, t][1..] == [t];
    assert [t][1..] == [];
    CountBelow3(p, q, r, t);
    assert CountBelow(q, [r, t]) == Below(r, q) + CountBelow(q, [t]);
    CountBelow1(q, t);
    CountBelow1(r, t);
    assert Inversions([t]) == CountBelow(t, []) + Inversions([]);
    assert Inversions([r, t]) == CountBelow(r, [t]) + Inversions([t]);
    assert Inversions([q, r, t]) == CountBelow(q, [r, t]) + Inversions([r, t]);
  }

  /** Bringing the last of four elements to the front does not change what lies across. */
  lemma {:induction false} CrossRotate(a: seq<int>, p: int, q: int, r: int, t: int)
    ensures Cross(a, [p, q, r, t]) == Cross(a, [t, p, q, r])
  {
    if a != [] {
      CountBelow4(a[0], p, q, r, t);
      CountBelow4(a[0], t, p, q, r);
      CrossRotate(a[1..], p, q, r, t);
    }
  }

  lemma CrossRotateRight(p: int, q: int, r: int, t: int, m: seq<int>)
    ensures Cross([p, q, r, t], m) == Cross([t, p, q, r], m)
  {
    Cross4(p, q, r, t, m);
    Cross4(t, p, q, r, m);
  }

  lemma RotateParity4(p: int, q: int, r: int, t: int)
    requires t != p && t != q && t != r
    ensures (Inversions([p, q, r, t]) + Inversions([t, p, q, r])) % 2 == 1
  {
    Inversions4(p, q, r, t);
    Inversions4(t, p, q, r);
  }

  /**
   * Moving one element t past three others p, q, r that all differ from it
   * changes the inversion count by an odd amount, whatever surrounds them.
   */
  lemma RotateParity(a: seq<int>, m: seq<int>, p: int, q: int, r: int, t: int)
    requires t != p && t != q && t != r
    ensures (Inversions(a + [p, q, r, t] + m) + Inversions(a + [t, p, q, r] + m)) % 2 == 1
  {
    var w, w' := [p, q, r, t], [t, p, q, r];
    assert a + w + m == a + (w + m);
    assert a + w' + m == a + (w' + m);
    InversionsAppend(a, w + m);
    InversionsAppend(a, w' + m);
    CrossAppend(a, w, m);
    CrossAppend(a, w', m);
    CrossRotate(a, p, q, r, t);
    InversionsAppend(w, m);
    InversionsAppend(w', m);
    CrossRotateRight(p, q, r, t, m);
    RotateParity4(p, q, r, t);
    var d := Inversions(a) + Cross(a, w) + Cross(a, m) + Cross(w, m) + Inversions(m);
    assert Inversions(a + w + m) == d + Inversions(w);
    assert Inversions(a + w' + m) == d + Inversions(w');
  }

  // ----- the blank in the filtered sequence -----

  lemma {:induction false} NonZeroAppend(p: seq<int>, q: seq<int>)
    ensures NonZero(p + q) == NonZero(p) + NonZero(q)
  {
    if p == [] {
      assert p + q == q;
    } else {
      assert (p + q)[0] == p[0];
      assert (p + q)[1..] == p[1..] + q;
      NonZeroAppend(p[1..], q);
    }
  }

  lemma NonZero1(x: int)
    ensures NonZero([x]) == if x == 0 then [] else [x]
  {
    assert [x][1..] == [];
  }

  lemma NonZero5(p: int, q: int, r: int, t: int)
    requires p != 0 && q != 0 && r != 0 && t != 0
    ensures NonZero([0, p, q, r, t]) == [p, q, r, t]
    ensures NonZero([t, p, q, r, 0]) == [t, p, q, r]
  {
    assert [0, p, q, r, t] == [0] + [p, q, r, t];
    assert [t, p, q, r, 0] == [t, p, q, r] + [0];
    NonZero1(0);
    NonZeroOfTiles([p, q, r, t]);
    NonZeroOfTiles([t, p, q, r]);
    NonZeroAppend([0], [p, q, r, t]);
    NonZeroAppend([t, p, q, r], [0]);
  }

  lemma NonZero2(x: int, y: int)
    requires x == 0 || y == 0
    ensures NonZero([x, y]) == NonZero([y, x])
  {
    assert [x, y] == [x] + [y];
    assert [y, x] == [y] + [x];
    NonZero1(x); NonZero1(y);
    NonZeroAppend([x], [y]);
    NonZeroAppend([y], [x]);
  }

  /** A vertical move (the tile below the blank goes up) flips the parity of the inversions. */
  lemma VerticalMoveFlipsInversions(b: seq<int>, z: int)
    requires IsBoard(b) && 0 <= z && z + N < Size && b[z] == 0
    ensures (Inversions(NonZero(b)) + Inversions(NonZero(Swap(b, z + N, z)))) % 2 == 1
  {
    var i := z + N;
    assert b[z] != b[z + 1] && b[z] != b[z + 2] && b[z] != b[z + 3] && b[z] != b[i];
    assert b[z + 1] != b[i] && b[z + 2] != b[i] && b[z + 3] != b[i];
    RotateFourCells(b, z);
  }

  lemma RotateFourCells(b: seq<int>, z: int)
    requires 0 <= z && z + 4 < |b| && b[z] == 0
    requires b[z + 1] != 0 && b[z + 2] != 0 && b[z + 3] != 0 && b[z + 4] != 0
    requires b[z + 4] != b[z + 1] && b[z + 4] != b[z + 2] && b[z + 4] != b[z + 3]
    ensures (Inversions(NonZero(b)) + Inversions(NonZero(Swap(b, z + 4, z)))) % 2 == 1
  {
    var p, q, r, t := b[z + 1], b[z + 2], b[z + 3], b[z + 4];
    var f, f' := NonZero(b[..z]), NonZero(b[z + 5..]);
    TilesAroundVerticalMove(b, z);
    RotateParity(f, f', p, q, r, t);
  }

  /** The tiles of b before and after a vertical move, in reading order. */
  lemma TilesAroundVerticalMove(b: seq<int>, z: int)
    requires 0 <= z && z + 4 < |b| && b[z] == 0
    requires b[z + 1] != 0 && b[z + 2] != 0 && b[z + 3] != 0 && b[z + 4] != 0
    ensures var f, f' := NonZero(b[..z]), NonZero(b[z + 5..]);
      && NonZero(b) == f + [b[z + 1], b[z + 2], b[z + 3], b[z + 4]] + f'
      && NonZero(Swap(b, z + 4, z)) == f + [b[z + 4], b[z + 1], b[z + 2], b[z + 3]] + f'
  {
    var p, q, r, t := b[z + 1], b[z + 2], b[z + 3], b[z + 4];
    var pre, post := b[..z], b[z + 5..];
    assert b == pre + [0, p, q, r, t] + post;
    assert Swap(b, z + 4, z) == pre + [t, p, q, r, 0] + post;
    NonZero5(p, q, r, t);
    NonZeroSplit(pre, [0, p, q, r, t], post);
    NonZeroSplit(pre, [t, p, q, r, 0], post);
  }

  lemma NonZeroSplit(pre: seq<int>, mid: seq<int>, post: seq<int>)
    ensures NonZero(pre + mid + post) == NonZero(pre) + NonZero(mid) + NonZero(post)
  {
    NonZeroAppend(pre + mid, post);
    NonZeroAppend(pre, mid);
  }

  /** A horizontal move leaves the tiles in the same reading order. */
  lemma SideMoveKeepsTiles(b: seq<int>, k: int)
    requires 0 <= k && k + 1 < |b| && (b[k] == 0 || b[k + 1] == 0)
    ensures NonZero(Swap(b, k, k + 1)) == NonZero(b)
  {
    var pre, post := b[..k], b[k + 2..];
    assert b == pre + [b[k], b[k + 1]] + post;
    assert Swap(b, k, k + 1) == pre + [b[k + 1], b[k]] + post;
    NonZeroAppend(pre + [b[k], b[k + 1]], post);
    NonZeroAppend(pre, [b[k], b[k + 1]]);
    NonZeroAppend(pre + [b[k + 1], b[k]], post);
    NonZeroAppend(pre, [b[k + 1], b[k]]);
    NonZero2(b[k], b[k + 1]);
  }

  /**
   * Every legal move keeps the parity test's outcome: horizontal moves change neither
   * term, vertical moves change the inversions by an odd amount and the row by one.
   */
  lemma MovePreservesSolvable(b: seq<int>, i: int)
    requires IsBoard(b) && 0 <= i < Size && CanMove(b, i)
    ensures IsSolvable(Move(b, i)) <==> IsSolvable(b)
  {
    var z := FindZero(b).i;
    CanMoveIffAdjacent(b, i);
    MoveSpec(b, i);
    var b' := Move(b, i);
    assert b' == Swap(b, i, z);
    if i == z + N {
      DownMoveKeepsParity(b, z);
    } else if i == z - N {
      SwapInvolution(b, i, z);
      DownMoveKeepsParity(b', i);
    } else if i == z + 1 {
      SwapInvolution(b, i, z);
      SideMoveKeepsParity(b, z);
    } else {
      SideMoveKeepsParity(b, i);
    }
  }

  /** The blank at z trades places with the tile below it. */
  lemma DownMoveKeepsParity(b: seq<int>, z: int)
    requires IsBoard(b) && 0 <= z && z + N < Size && b[z] == 0
    ensures IsSolvable(Swap(b, z + N, z)) <==> IsSolvable(b)
  {
    var b' := Swap(b, z + N, z);
    DownMoveLowersRow(b, z);
    VerticalMoveFlipsInversions(b, z);
    var inv, inv' := Inversions(NonZero(b)), Inversions(NonZero(b'));
    var row, row' := RowFromBottomOfZero(b), RowFromBottomOfZero(b');
    ParityKept(inv, inv', row, row');
    assert IsSolvable(b) <==> (inv + row) % 2 == 1;
    assert IsSolvable(b') <==> (inv' + row') % 2 == 1;
  }

  /** When the blank trades with the tile below it, its row from the bottom drops by one. */
  lemma DownMoveLowersRow(b: seq<int>, z: int)
    requires IsBoard(b) && 0 <= z && z + N < Size && b[z] == 0
    ensures IsBoard(Swap(b, z + N, z))
    ensures RowFromBottomOfZero(Swap(b, z + N, z)) == RowFromBottomOfZero(b) - 1
  {
    var b' := Swap(b, z + N, z);
    SwapPreservesBoard(b, z + N, z);
    BlankUnique(b, z);
    BlankUnique(b', z + N);
    RowAfterMove(z, z + N);
  }

  /** The cells k and k + 1 of one row trade places, one of them being the blank. */
  lemma SideMoveKeepsParity(b: seq<int>, k: int)
    requires IsBoard(b) && 0 <= k && k + 1 < Size && k % N != N - 1 && (b[k] == 0 || b[k + 1] == 0)
    ensures IsSolvable(Swap(b, k, k + 1)) <==> IsSolvable(b)
  {
    var b' := Swap(b, k, k + 1);
    SideMoveKeepsRow(b, k);
    SideMoveKeepsTiles(b, k);
    var inv, inv' := Inversions(NonZero(b)), Inversions(NonZero(b'));
    var row, row' := RowFromBottomOfZero(b), RowFromBottomOfZero(b');
    assert inv == inv' && row == row';
    assert IsSolvable(b) <==> (inv + row) % 2 == 1;
    assert IsSolvable(b') <==> (inv' + row') % 2 == 1;
  }

  /** A horizontal move keeps the blank in its row. */
  lemma SideMoveKeepsRow(b: seq<int>, k: int)
    requires IsBoard(b) && 0 <= k && k + 1 < Size && k % N != N - 1 && (b[k] == 0 || b[k + 1] == 0)
    ensures IsBoard(Swap(b, k, k + 1))
    ensures RowFromBottomOfZero(Swap(b, k, k + 1)) == RowFromBottomOfZero(b)
  {
    var b' := Swap(b, k, k + 1);
    SwapPreservesBoard(b, k, k + 1);
    RowAfterMove(k, k + 1);
    if b[k] == 0 {
      BlankUnique(b, k);
      BlankUnique(b', k + 1);
    } else {
      BlankUnique(b, k + 1);
      BlankUnique(b', k);
    }
  }

  /** How the blank's row changes when it moves from z to a neighbour i. */
  lemma RowAfterMove(z: int, i: int)
    requires 0 <= z < Size && 0 <= i < Size && Adjacent(z, i)
    ensures i == z + N ==> Row(i) == Row(z) + 1
    ensures i == z - N ==> Row(i) == Row(z) - 1
    ensures (i == z + 1 || i == z - 1) ==> Row(i) == Row(z)
  {
  }

  lemma ParityKept(inv: int, inv': int, row: int, row': int)
    requires ((inv + inv') % 2 == 1 && (row' == row + 1 || row' == row - 1))
          || (inv == inv' && row == row')
    ensures ((inv + row) % 2 == 1) <==> ((inv' + row') % 2 == 1)
  {
    if !(inv == inv' && row == row') {
      var k := (inv + inv') / 2;
      assert inv + inv' == 2 * k + 1;
      var m := if row' == row + 1 then k + row + 1 else k + row;
      assert (inv + row) + (inv' + row') == 2 * m;
    }
  }

  // ----- the solved board, and every board reached from it -----

  lemma {:induction false} AscendingHasNoInversions(s: seq<int>)
    requires forall k, l :: 0 <= k < l < |s| ==> s[k] < s[l]
    ensures Inversions(s) == 0
  {
    if s != [] {
      NoneBelow(s[0], s[1..]);
      AscendingHasNoInversions(s[1..]);
    }
  }

  lemma {:induction false} NoneBelow(x: int, t: seq<int>)
    requires forall k :: 0 <= k < |t| ==> x < t[k]
    ensures CountBelow(x, t) == 0
  {
    if t != [] {
      NoneBelow(x, t[1..]);
    }
  }

  lemma {:induction false} NonZeroOfTiles(s: seq<int>)
    requires forall k :: 0 <= k < |s| ==> s[k] != 0
    ensures NonZero(s) == s
  {
    if s != [] {
      NonZeroOfTiles(s[1..]);
      assert s == [s[0]] + s[1..];
    }
  }

  /** The solved board passes the test: no inversions, blank in the bottom row. */
  lemma GoalIsSolvable()
    ensures Inversions(NonZero(Goal)) == 0 && RowFromBottomOfZero(Goal) == 1
    ensures IsSolvable(Goal)
  {
    GoalIsBoard();
    GoalTilesAscend();
    SortedTilesThenBlank(Goal);
    ParityOfTerms(Goal);
  }

  /** Any board whose cells read 1, ..., 15, 0 passes the test. */
  lemma SolvedIsSolvable(b: seq<int>)
    requires IsBoard(b) && Solved(b)
    ensures IsSolvable(b)
  {
    forall k | 0 <= k < Size ensures b[k] == Goal[k] {
      assert b[..Size][k] == b[k];
    }
    GoalTilesAscend();
    SortedTilesThenBlank(b);
    ParityOfTerms(b);
  }

  lemma ParityOfTerms(b: seq<int>)
    requires Inversions(NonZero(b)) == 0 && RowFromBottomOfZero(b) == 1
    ensures IsSolvable(b)
  {
  }

  lemma GoalTilesAscend()
    ensures forall k, l :: 0 <= k < l < Size - 1 ==> Goal[k] < Goal[l]
  {
    assert forall k :: 0 <= k < Size - 1 ==> Goal[k] == k + 1;
  }

  lemma SortedTilesThenBlank(b: seq<int>)
    requires IsBoard(b) && b[Size - 1] == 0
    requires forall k, l :: 0 <= k < l < Size - 1 ==> b[k] < b[l]
    ensures Inversions(NonZero(b)) == 0 && RowFromBottomOfZero(b) == 1
  {
    var tiles := b[..Size - 1];
    assert b == tiles + [0];
    NonZeroAppend(tiles, [0]);
    NonZero1(0);
    assert forall k :: 0 <= k < |tiles| ==> tiles[k] != 0 by {
      forall k | 0 <= k < |tiles| ensures tiles[k] != 0 {
        assert b[k] != b[Size - 1];
      }
    }
    NonZeroOfTiles(tiles);
    assert forall k, l :: 0 <= k < l < |tiles| ==> tiles[k] < tiles[l] by {
      forall k, l | 0 <= k < l < |tiles| ensures tiles[k] < tiles[l] {
        assert tiles[k] == b[k] && tiles[l] == b[l];
      }
    }
    AscendingHasNoInversions(tiles);
    assert NonZero(b) == tiles;
    BlankUnique(b, Size - 1);
    assert Row(Size - 1) == N - 1;
  }

  /** `moveAtIndex` applied to each index of `taps` in turn (board part only). */
  function Play(b: seq<int>, taps: seq<int>): (r: seq<int>)
    requires IsBoard(b)
    requires forall k :: 0 <= k < |taps| ==> 0 <= taps[k] < Size
    ensures IsBoard(r)
    decreases |taps|
  {
    if taps == [] then b else Play(Move(b, taps[0]), taps[1..])
  }

  /** Playing any sequence of moves keeps the parity test's outcome. */
  lemma {:induction false} PlayPreservesSolvable(b: seq<int>, taps: seq<int>)
    requires IsBoard(b)
    requires forall k :: 0 <= k < |taps| ==> 0 <= taps[k] < Size
    ensures IsSolvable(Play(b, taps)) <==> IsSolvable(b)
    decreases |taps|
  {
    if taps != [] {
      if CanMove(b, taps[0]) {
        MovePreservesSolvable(b, taps[0]);
      } else {
        MoveSpec(b, taps[0]);
      }
      PlayPreservesSolvable(Move(b, taps[0]), taps[1..]);
    }
  }

  /** Every board reachable from the solved board by legal moves passes the test. */
  lemma ReachableIsSolvable(b: seq<int>, taps: seq<int>)
    requires IsBoard(b) && Solved(b)
    requires forall k :: 0 <= k < |taps| ==> 0 <= taps[k] < Size
    ensures IsSolvable(Play(b, taps))
  {
    SolvedIsSolvable(b);
    PlayPreservesSolvable(b, taps);
  }
}
