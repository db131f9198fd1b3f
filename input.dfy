/**
 * Which tile a key press or a swipe asks to move. Both handlers look at the blank's
 * row and column and name the neighbouring cell whose tile would slide into it.
 *
 * Keys arrive already lower-cased (`e.key.toLowerCase()` is not modelled) and swipe
 * offsets are whole pixels.
 */
module Input {
  import opened Wrappers
  import opened Board

  /** The direction in which the chosen tile slides into the blank. */
  datatype Direction = Up | Down | Left | Right

  function DeltaRow(d: Direction): int {
    match d
    case Up => -1
    case Down => 1
    case Left => 0
    case Right => 0
  }

  function DeltaCol(d: Direction): int {
    match d
    case Up => 0
    case Down => 0
    case Left => -1
    case Right => 1
  }

  /**
   * The cell whose tile would slide in direction d into the blank at (r, c),
   * when that cell is on the grid: a cell index one step against d, which for a
   * blank on the grid is at Manhattan distance 1 from it, as `canMove` demands.
   */
  function TileBehind(d: Direction, r: int, c: int): (t: Option<int>)
    ensures t.Some? <==> InGrid(r - DeltaRow(d), c - DeltaCol(d))
    ensures t.Some? ==>
      && 0 <= t.value < Size
      && Row(t.value) == r - DeltaRow(d) && Col(t.value) == c - DeltaCol(d)
    ensures InGrid(r, c) && t.Some? ==> Abs(Row(t.value) - r) + Abs(Col(t.value) - c) == 1
  {
    var r', c' := r - DeltaRow(d), c - DeltaCol(d);
    if InGrid(r', c') then
      IdxRowCol(r', c');
      Some(Idx(r', c'))
    else None
  }

  /** The direction each key of the keyboard handler stands for. */
  function KeyDirection(key: string): Option<Direction> {
    if key == "arrowup" || key == "w" then Some(Up)
    else if key == "arrowdown" || key == "s" then Some(Down)
    else if key == "arrowleft" || key == "a" then Some(Left)
    else if key == "arrowright" || key == "d" then Some(Right)
    else None
  }

  /**
   * The `keydown` handler's choice of target for the blank at row r, column c. For a
   * blank on the grid it is the neighbour lying opposite the key's direction, and
   * none at the edge or for any other key.
   */
  function KeyTarget(key: string, r: int, c: int): (t: Option<int>)
    ensures InGrid(r, c) ==>
      t == match KeyDirection(key)
           case None => None
           case Some(d) => TileBehind(d, r, c)
  {
    if (key == "arrowup" || key == "w") && r < N - 1 then Some(Idx(r + 1, c))
    else if (key == "arrowdown" || key == "s") && r > 0 then Some(Idx(r - 1, c))
    else if (key == "arrowleft" || key == "a") && c < N - 1 then Some(Idx(r, c + 1))
    else if (key == "arrowright" || key == "d") && c > 0 then Some(Idx(r, c - 1))
    else None
  }

  /** Swipes shorter than this many pixels in both directions are ignored. */
  const SwipeThreshold: int := 24

  function Max(a: int, b: int): int { if a >= b then a else b }

  /**
   * The direction of a swipe, or None when it is too short: a horizontal direction
   * when the horizontal offset is strictly larger, a vertical one otherwise, in
   * either case with the sign of that offset, which must reach the threshold.
   */
  function SwipeDirection(dx: int, dy: int): (d: Option<Direction>)
    ensures d.None? <==> Max(Abs(dx), Abs(dy)) < SwipeThreshold
    ensures d == Some(Right) <==> Abs(dx) > Abs(dy) && dx >= SwipeThreshold
    ensures d == Some(Left) <==> Abs(dx) > Abs(dy) && dx <= -SwipeThreshold
    ensures d == Some(Down) <==> Abs(dy) >= Abs(dx) && dy >= SwipeThreshold
    ensures d == Some(Up) <==> Abs(dy) >= Abs(dx) && dy <= -SwipeThreshold
  {
    if Max(Abs(dx), Abs(dy)) < SwipeThreshold then None
    else if Abs(dx) > Abs(dy) then (if dx > 0 then Some(Right) else Some(Left))
    else if dy > 0 then Some(Down)
    else Some(Up)
  }

  /**
   * The `touchend` handler's choice of target for a swipe by (dx, dy). For a blank
   * on the grid it is the neighbour lying opposite the swipe's direction, and none
   * at the edge or for a short swipe.
   */
  function SwipeTarget(dx: int, dy: int, r: int, c: int): (t: Option<int>)
    ensures InGrid(r, c) ==>
      t == match SwipeDirection(dx, dy)
           case None => None
           case Some(d) => TileBehind(d, r, c)
  {
    var absx, absy := Abs(dx), Abs(dy);
    if Max(absx, absy) < SwipeThreshold then None
    else if absx > absy then
      if dx > 0 && c > 0 then Some(Idx(r, c - 1))
      else if dx < 0 && c < N - 1 then Some(Idx(r, c + 1))
      else None
    else
      if dy > 0 && r > 0 then Some(Idx(r - 1, c))
      else if dy < 0 && r < N - 1 then Some(Idx(r + 1, c))
      else None
  }

  /** A swipe below the threshold on both axes selects nothing. */
  lemma ShortSwipeIgnored(dx: int, dy: int, r: int, c: int)
    requires Max(Abs(dx), Abs(dy)) < SwipeThreshold
    ensures SwipeTarget(dx, dy, r, c) == None
  {
  }

  /** The blank's row and column on a board are on the grid. */
  lemma BlankInGrid(b: seq<int>)
    requires IsBoard(b)
    ensures var z := FindZero(b);
      InGrid(z.r, z.c) && z.r == Row(z.i) && z.c == Col(z.i)
  {
    assert 0 in b;
  }

  /** The cell behind the blank in any direction holds a tile that `canMove` accepts. */
  lemma TileBehindIsLegal(b: seq<int>, d: Direction)
    requires IsBoard(b)
    ensures var z := FindZero(b);
      TileBehind(d, z.r, z.c).Some? ==>
        var t := TileBehind(d, z.r, z.c).value;
        0 <= t < Size && CanMove(b, t) && b[t] != 0
  {
    var z := FindZero(b);
    BlankInGrid(b);
    if TileBehind(d, z.r, z.c).Some? {
      var t := TileBehind(d, z.r, z.c).value;
      var r', c' := z.r - DeltaRow(d), z.c - DeltaCol(d);
      IdxRowCol(r', c');
      IdxRowCol(z.r, z.c);
      CanMoveIffAdjacent(b, t);
      if t < z.i { assert b[t] != b[z.i]; } else { assert b[z.i] != b[t]; }
    }
  }

  /** Conversely every tile that `canMove` accepts lies behind the blank in some direction. */
  lemma LegalTileIsBehind(b: seq<int>, t: int)
    requires IsBoard(b) && 0 <= t < Size && CanMove(b, t)
    ensures var z := FindZero(b);
      exists d :: TileBehind(d, z.r, z.c) == Some(t)
  {
    var z := FindZero(b);
    BlankInGrid(b);
    CanMoveIffAdjacent(b, t);
    IdxRowCol(z.r, z.c);
    if t == z.i - N {
      assert TileBehind(Down, z.r, z.c) == Some(t);
    } else if t == z.i + N {
      assert TileBehind(Up, z.r, z.c) == Some(t);
    } else if t == z.i - 1 {
      assert TileBehind(Right, z.r, z.c) == Some(t);
    } else {
      assert TileBehind(Left, z.r, z.c) == Some(t);
    }
  }

  /** Every key press that selects a target selects a legal move. */
  lemma KeyTargetIsLegal(b: seq<int>, key: string)
    requires IsBoard(b)
    ensures var z := FindZero(b);
      KeyTarget(key, z.r, z.c).Some? ==>
        var t := KeyTarget(key, z.r, z.c).value;
        0 <= t < Size && CanMove(b, t)
  {
    var z := FindZero(b);
    BlankInGrid(b);
    if KeyDirection(key).Some? {
      TileBehindIsLegal(b, KeyDirection(key).value);
    }
  }

  /** Every swipe that selects a target selects a legal move. */
  lemma SwipeTargetIsLegal(b: seq<int>, dx: int, dy: int)
    requires IsBoard(b)
    ensures var z := FindZero(b);
      SwipeTarget(dx, dy, z.r, z.c).Some? ==>
        var t := SwipeTarget(dx, dy, z.r, z.c).value;
        0 <= t < Size && CanMove(b, t)
  {
    var z := FindZero(b);
    BlankInGrid(b);
    if SwipeDirection(dx, dy).Some? {
      TileBehindIsLegal(b, SwipeDirection(dx, dy).value);
    }
  }
}
