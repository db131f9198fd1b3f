/**
 * `shuffledSolvable`: Fisher-Yates shuffles of one array, repeated until the
 * board passes the parity test and is not already solved.
 *
 * `Math.random` is replaced by an explicit supply of choices: each round of the
 * retry loop consumes one sequence of 15 choices, the k-th of which is the j that
 * `Math.floor(Math.random() * (i + 1))` yields for i = 15 - k. The number of
 * rounds supplied bounds the retry loop; when they run out the model answers None.
 */
module Shuffle {
  import opened Wrappers
  import opened Board
  import opened Solvability

  /** The choices of one Fisher-Yates pass: for i = 15 down to 1, some j with 0 <= j <= i. */
  predicate ValidRound(ds: seq<int>) {
    |ds| == Size - 1 && forall k :: 0 <= k < |ds| ==> 0 <= ds[k] <= Size - 1 - k
  }

  predicate ValidRounds(rounds: seq<seq<int>>) {
    forall n :: 0 <= n < |rounds| ==> ValidRound(rounds[n])
  }

  /** The Fisher-Yates loop from index i down to 1, swapping cell i with cell ds[0], then on. */
  function FisherYates(s: seq<int>, i: int, ds: seq<int>): (r: seq<int>)
    requires 0 <= i < |s| && |ds| == i
    requires forall k :: 0 <= k < |ds| ==> 0 <= ds[k] <= i - k
    ensures |r| == |s|
    decreases i
  {
    if i == 0 then s
    else
      var s' := Swap(s, i, ds[0]);
      assert s'[i + 1..] == s[i + 1..];
      FisherYates(s', i - 1, ds[1..])
  }

  /** A pass only rearranges the cells, whatever they hold. */
  lemma {:induction false} FisherYatesPermutes(s: seq<int>, i: int, ds: seq<int>)
    requires 0 <= i < |s| && |ds| == i
    requires forall k :: 0 <= k < |ds| ==> 0 <= ds[k] <= i - k
    ensures multiset(FisherYates(s, i, ds)) == multiset(s)
    decreases i
  {
    if i > 0 {
      SwapPermutes(s, i, ds[0]);
      FisherYatesPermutes(Swap(s, i, ds[0]), i - 1, ds[1..]);
    }
  }

  /** Each swap with j <= i keeps a permutation of 0..15, so the whole pass does. */
  lemma {:induction false} FisherYatesPreservesBoard(s: seq<int>, i: int, ds: seq<int>)
    requires IsBoard(s) && 0 <= i < Size && |ds| == i
    requires forall k :: 0 <= k < |ds| ==> 0 <= ds[k] <= i - k
    ensures IsBoard(FisherYates(s, i, ds))
    decreases i
  {
    if i > 0 {
      SwapPreservesBoard(s, i, ds[0]);
      FisherYatesPreservesBoard(Swap(s, i, ds[0]), i - 1, ds[1..]);
    }
  }

  /** Dropping the first round keeps the rest valid. */
  lemma ValidRoundsTail(rounds: seq<seq<int>>)
    requires ValidRounds(rounds) && rounds != []
    ensures ValidRound(rounds[0]) && ValidRounds(rounds[1..])
  {
    forall n | 0 <= n < |rounds| - 1 ensures ValidRound(rounds[1..][n]) {
      assert rounds[1..][n] == rounds[n + 1];
    }
  }

  /**
   * The retry loop as a function of the array it starts from and the rounds of
   * choices: the first pass result that is solvable and not solved, if any.
   */
  function ShuffleFrom(a: seq<int>, rounds: seq<seq<int>>): (r: Option<seq<int>>)
    requires |a| == Size && ValidRounds(rounds)
    decreases |rounds|
  {
    if rounds == [] then None
    else
      ValidRoundsTail(rounds);
      var b := FisherYates(a, |rounds[0]|, rounds[0]);
      if IsSolvable(b) && !Solved(b) then Some(b) else ShuffleFrom(b, rounds[1..])
  }

  /** Round n of the retry loop, from the array a it starts with to the pass b it produces. */
  lemma ShuffleFromStep(a: seq<int>, rounds: seq<seq<int>>, n: int, b: seq<int>)
    requires |a| == Size && ValidRounds(rounds) && 0 <= n < |rounds|
    requires ValidRound(rounds[n]) && b == FisherYates(a, |rounds[n]|, rounds[n])
    ensures ValidRounds(rounds[n..]) && ValidRounds(rounds[n + 1..]) && |b| == Size
    ensures ShuffleFrom(a, rounds[n..])
         == if IsSolvable(b) && !Solved(b) then Some(b) else ShuffleFrom(b, rounds[n + 1..])
  {
    var rest := rounds[n..];
    assert rest[0] == rounds[n] && rest[1..] == rounds[n + 1..];
    ValidRoundsTail(rest);
  }

  /** Whatever the choices, an answer is a permutation of 0..15 that is solvable and not solved. */
  lemma {:induction false} ShuffleFromSound(a: seq<int>, rounds: seq<seq<int>>)
    requires IsBoard(a) && ValidRounds(rounds)
    ensures ShuffleFrom(a, rounds).Some? ==>
      var b := ShuffleFrom(a, rounds).value;
      IsBoard(b) && IsSolvable(b) && !Solved(b)
    decreases |rounds|
  {
    if rounds != [] {
      ValidRoundsTail(rounds);
      var b := FisherYates(a, |rounds[0]|, rounds[0]);
      FisherYatesPreservesBoard(a, |rounds[0]|, rounds[0]);
      if !(IsSolvable(b) && !Solved(b)) {
        assert ShuffleFrom(a, rounds) == ShuffleFrom(b, rounds[1..]);
        ShuffleFromSound(b, rounds[1..]);
      }
    }
  }

  /** `swap(a, i, j)` on an array, in place. */
  method SwapCells(a: array<int>, i: int, j: int)
    requires 0 <= i < a.Length && 0 <= j < a.Length
    modifies a
    ensures a[..] == Swap(old(a[..]), i, j)
  {
    var t := a[i];
    a[i] := a[j];
    a[j] := t;
  }

  /** One run of the Fisher-Yates loop of `shuffledSolvable`, in place. */
  method FisherYatesPass(a: array<int>, ds: seq<int>)
    requires a.Length == Size && ValidRound(ds)
    modifies a
    ensures a[..] == FisherYates(old(a[..]), |ds|, ds)
  {
    var i := Size - 1;
    while i > 0
      invariant 0 <= i <= Size - 1
      invariant FisherYates(a[..], i, ds[Size - 1 - i..]) == FisherYates(old(a[..]), |ds|, ds)
    {
      var j := ds[Size - 1 - i];
      assert ds[Size - 1 - i..][1..] == ds[Size - 1 - (i - 1)..];
      SwapCells(a, i, j);
      i := i - 1;
    }
  }

  /** The fresh array `[1, 2, ..., 15, 0]` each call of `shuffledSolvable` starts from. */
  method NewGoalArray() returns (a: array<int>)
    ensures fresh(a) && a[..] == Goal
  {
    a := new int[Size](k => if k < Size - 1 then k + 1 else 0);
    assert a[..] == Goal;
  }

  /** One iteration of the do-while: a Fisher-Yates pass, then the exit test on the result. */
  method ShuffleRound(a: array<int>, ds: seq<int>) returns (accepted: bool)
    requires a.Length == Size && ValidRound(ds)
    modifies a
    ensures a[..] == FisherYates(old(a[..]), |ds|, ds)
    ensures accepted == (IsSolvable(a[..]) && !Solved(a[..]))
  {
    FisherYatesPass(a, ds);
    var solvable := ComputeIsSolvable(a[..]);
    var solved := IsSolved(a[..]);
    accepted := solvable && !solved;
  }

  /** The retry loop of `shuffledSolvable` on the array it keeps shuffling. */
  method ShuffleUntilSolvable(a: array<int>, rounds: seq<seq<int>>) returns (r: Option<seq<int>>)
    requires a.Length == Size && ValidRounds(rounds)
    modifies a
    ensures r == ShuffleFrom(old(a[..]), rounds)
  {
    ghost var answer := ShuffleFrom(a[..], rounds);
    assert rounds[0..] == rounds;
    var n := 0;
    while n < |rounds|
      invariant 0 <= n <= |rounds|
      invariant ValidRounds(rounds[n..])
      invariant ShuffleFrom(a[..], rounds[n..]) == answer
      decreases |rounds| - n
    {
      ghost var prev := a[..];
      var accepted := ShuffleRound(a, rounds[n]);
      ShuffleFromStep(prev, rounds, n, a[..]);
      n := n + 1;
      if accepted {
        return Some(a[..]);
      }
    }
    assert rounds[n..] == [];
    return None;
  }

  /** `shuffledSolvable()`, its random draws supplied by `rounds`. */
  method ShuffledSolvable(rounds: seq<seq<int>>) returns (r: Option<seq<int>>)
    requires ValidRounds(rounds)
    ensures r == ShuffleFrom(Goal, rounds)
    ensures r.Some? ==> IsBoard(r.value) && IsSolvable(r.value) && !Solved(r.value)
  {
    var a := NewGoalArray();
    GoalIsBoard();
    ShuffleFromSound(Goal, rounds);
    r := ShuffleUntilSolvable(a, rounds);
  }
}
