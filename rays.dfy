/** Slider rays: the walk of a rook, bishop or queen in one direction until it is blocked. */
module Rays {
  import opened Pieces
  import opened Topology

  /** A (row, column) displacement. */
  datatype Offset = Offset(dr: int, dc: int)

  /** One of the eight king steps; the slider directions are all of this kind. */
  predicate IsUnitStep(d: Offset) {
    -1 <= d.dr <= 1 && -1 <= d.dc <= 1 && d != Offset(0, 0)
  }

  function Next(s: Square, d: Offset): Square {
    Square(s.row + d.dr, s.col + d.dc)
  }

  /** A bound on how many more steps a ray in direction `d` can take from `s` before leaving the array. */
  function RayMeasure(s: Square, d: Offset): int {
    if d.dr > 0 then Size - s.row
    else if d.dr < 0 then s.row + 1
    else if d.dc > 0 then Size - s.col
    else s.col + 1
  }

  /**
   * The slider walk in direction `d`, starting at the square `s`: every square while on the
   * board, stopping after the first occupied one, friend or foe.
   */
  function Ray(b: Board, s: Square, d: Offset): (ray: seq<Square>)
    requires IsUnitStep(d)
    decreases RayMeasure(s, d)
  {
    if !IsOnBoard(s.row, s.col) then []
    else if b[s.row][s.col] != Empty then [s]
    else [s] + Ray(b, Next(s, d), d)
  }

  lemma {:induction false} RayOnBoard(b: Board, s: Square, d: Offset)
    requires IsUnitStep(d)
    ensures forall t :: t in Ray(b, s, d) ==> IsOnBoard(t.row, t.col)
    decreases RayMeasure(s, d)
  {
    if IsOnBoard(s.row, s.col) && b[s.row][s.col] == Empty {
      RayOnBoard(b, Next(s, d), d);
    }
  }

  /**
   * One step of the walk at an on-board square `s`: record it, then stop if it is occupied or
   * move on; each step shortens the way left.
   */
  lemma RayStep(b: Board, done: seq<Square>, s: Square, d: Offset, whole: seq<Square>)
    requires IsUnitStep(d) && IsOnBoard(s.row, s.col)
    requires done + Ray(b, s, d) == whole
    ensures b[s.row][s.col] != Empty ==> done + [s] == whole
    ensures b[s.row][s.col] == Empty ==> (done + [s]) + Ray(b, Next(s, d), d) == whole
    ensures 0 <= RayMeasure(Next(s, d), d) < RayMeasure(s, d)
  {
    if b[s.row][s.col] == Empty {
      assert Ray(b, s, d) == [s] + Ray(b, Next(s, d), d);
      assert done + ([s] + Ray(b, Next(s, d), d)) == (done + [s]) + Ray(b, Next(s, d), d);
    }
  }

  /** Off the board the walk is over. */
  lemma RayOff(b: Board, done: seq<Square>, s: Square, d: Offset, whole: seq<Square>)
    requires IsUnitStep(d) && !IsOnBoard(s.row, s.col)
    requires done + Ray(b, s, d) == whole
    ensures done == whole
  {
    assert done + [] == done;
  }

  /** The square reached from `s` after `k` steps in direction `d`. */
  function Walk(s: Square, d: Offset, k: nat): Square
    decreases k
  {
    if k == 0 then s else Walk(Next(s, d), d, k - 1)
  }

  /** The i-th square of a ray is i steps along its direction from the first. */
  lemma {:induction false} RayFollowsWalk(b: Board, s: Square, d: Offset, i: int)
    requires IsUnitStep(d)
    requires 0 <= i < |Ray(b, s, d)|
    ensures Ray(b, s, d)[i] == Walk(s, d, i)
    decreases RayMeasure(s, d)
  {
    if i > 0 {
      RayFollowsWalk(b, Next(s, d), d, i - 1);
    }
  }

  /** Every square of a ray before its last one is empty: a slider never passes a piece. */
  lemma {:induction false} RayPassesOnlyEmpty(b: Board, s: Square, d: Offset, i: int)
    requires IsUnitStep(d)
    requires 0 <= i < |Ray(b, s, d)| - 1
    ensures InGrid(Ray(b, s, d)[i].row, Ray(b, s, d)[i].col)
    ensures At(b, Ray(b, s, d)[i]) == Empty
    decreases RayMeasure(s, d)
  {
    if i > 0 {
      RayPassesOnlyEmpty(b, Next(s, d), d, i - 1);
    }
  }

  /**
   * A ray ends for one of two reasons: the next square along the direction is off the board, or
   * its last square is occupied (friend or foe, which is then included).
   */
  lemma {:induction false} RayStops(b: Board, s: Square, d: Offset)
    requires IsUnitStep(d)
    ensures var ray := Ray(b, s, d); var next := Walk(s, d, |ray|);
      || !IsOnBoard(next.row, next.col)
      || (InGrid(ray[|ray| - 1].row, ray[|ray| - 1].col) && At(b, ray[|ray| - 1]) != Empty)
    decreases RayMeasure(s, d)
  {
    if IsOnBoard(s.row, s.col) && b[s.row][s.col] == Empty {
      RayStops(b, Next(s, d), d);
    }
  }

  /**
   * The `while` walk of `getSlidingMoves` in one direction: record each on-board square and stop
   * after the first occupied one.
   */
  method WalkRay(b: Board, row: int, col: int, d: Offset) returns (moves: seq<Square>)
    requires IsUnitStep(d)
    ensures moves == Ray(b, Square(row + d.dr, col + d.dc), d)
  {
    moves := [];
    var newRow, newCol := row + d.dr, col + d.dc;
    ghost var whole := Ray(b, Square(newRow, newCol), d);
    while IsOnBoard(newRow, newCol)
      invariant moves + Ray(b, Square(newRow, newCol), d) == whole
      decreases RayMeasure(Square(newRow, newCol), d)
    {
      RayStep(b, moves, Square(newRow, newCol), d, whole);
      moves := moves + [Square(newRow, newCol)];
      if b[newRow][newCol] != Empty {
        return;
      }
      newRow, newCol := newRow + d.dr, newCol + d.dc;
    }
    RayOff(b, moves, Square(newRow, newCol), d, whole);
  }
}
