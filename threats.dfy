/**
 * Threat detection: `findKing` and `isSquareAttacked`. Both scan all 100 cells of the array row by
 * row, off-board cells included.
 */
module Threats {
  import opened Pieces
  import opened Topology
  import opened Attacks

  /** `s` comes before `t` in the scan order of the nested loops: row by row, left to right. */
  predicate ScansBefore(s: Square, t: Square) {
    s.row < t.row || (s.row == t.row && s.col < t.col)
  }

  predicate IsKing(b: Board, color: Color, s: Square) {
    InGrid(s.row, s.col) && At(b, s) == Occupied(Piece(King, color))
  }

  /** `s` holds the king of `color` that the scan meets first. */
  ghost predicate IsFirstKing(b: Board, color: Color, s: Square) {
    IsKing(b, color, s) && forall t :: IsKing(b, color, t) ==> !ScansBefore(t, s)
  }

  /** Wherever a king of `color` stands, some king of `color` is met first. */
  lemma {:induction false} FirstKingExists(b: Board, color: Color, s: Square)
    requires IsKing(b, color, s)
    ensures exists k :: IsFirstKing(b, color, k)
    decreases s.row * 10 + s.col
  {
    if !IsFirstKing(b, color, s) {
      var t :| IsKing(b, color, t) && ScansBefore(t, s);
      FirstKingExists(b, color, t);
    }
  }

  /** The scan order is total, so the first king is unique. */
  lemma FirstKingUnique(b: Board, color: Color, k1: Square, k2: Square)
    requires IsFirstKing(b, color, k1) && IsFirstKing(b, color, k2)
    ensures k1 == k2
  {
  }

  /** `findKing`: the first king of `color` in row-major order over the whole array, or none. */
  ghost function FirstKing(b: Board, color: Color): Option<Square>
  {
    if exists s :: IsKing(b, color, s) then
      var s :| IsKing(b, color, s);
      FirstKingExists(b, color, s);
      var k :| IsFirstKing(b, color, k);
      Some(k)
    else None
  }

  /** `findKing` returns exactly the first king of the scan, and null exactly when there is none. */
  lemma FirstKingIs(b: Board, color: Color, k: Option<Square>)
    ensures FirstKing(b, color) == k <==>
      if k.Some? then IsFirstKing(b, color, k.value) else forall s :: !IsKing(b, color, s)
  {
    if k.Some? && IsFirstKing(b, color, k.value) {
      FirstKingUnique(b, color, k.value, FirstKing(b, color).value);
    }
  }

  /** The piece on `s` belongs to `attacker` and `target` is among its attack moves. */
  predicate Hits(b: Board, s: Square, target: Square, attacker: Color) {
    && InGrid(s.row, s.col)
    && At(b, s).Occupied?
    && At(b, s).piece.color == attacker
    && target in AttackSquares(b, At(b, s).piece, s.row, s.col)
  }

  /** `isSquareAttacked`: some piece of `attacker`, anywhere in the array, attacks `target`. */
  ghost predicate Attacked(b: Board, target: Square, attacker: Color) {
    exists s :: Hits(b, s, target, attacker)
  }

  /** Only playable squares are ever attacked, since every attack pattern stays on the board. */
  lemma AttackedOnlyOnBoard(b: Board, target: Square, attacker: Color)
    ensures Attacked(b, target, attacker) ==> IsOnBoard(target.row, target.col)
  {
    if Attacked(b, target, attacker) {
      var s :| Hits(b, s, target, attacker);
      AttackSquaresOnBoard(b, At(b, s).piece, s.row, s.col);
    }
  }

  /** The king of `color` the scan finds is attacked by the other side; false when there is no king. */
  ghost predicate InCheck(b: Board, color: Color) {
    var k := FirstKing(b, color);
    k.Some? && Attacked(b, k.value, Opponent(color))
  }

  method FindKing(b: Board, color: Color) returns (k: Option<Square>)
    ensures k == FirstKing(b, color)
  {
    for r := 0 to 10
      invariant forall t :: IsKing(b, color, t) ==> t.row >= r
    {
      for c := 0 to 10
        invariant forall t :: IsKing(b, color, t) ==> t.row > r || (t.row == r && t.col >= c)
      {
        var piece := b[r][c];
        if piece.Occupied? && piece.piece.kind == King && piece.piece.color == color {
          k := Some(Square(r, c));
          FirstKingIs(b, color, k);
          return;
        }
      }
    }
    k := None;
    FirstKingIs(b, color, k);
  }

  /** No piece met by the scan before cell (r, c) hits `target`. */
  ghost predicate NoHitBefore(b: Board, target: Square, attacker: Color, r: int, c: int) {
    forall s :: Hits(b, s, target, attacker) ==> s.row > r || (s.row == r && s.col >= c)
  }

  /** One cell of the scan: a cell that does not hit keeps the scanned part free of hits. */
  lemma NoHitStep(b: Board, target: Square, attacker: Color, r: int, c: int)
    requires NoHitBefore(b, target, attacker, r, c) && !Hits(b, Square(r, c), target, attacker)
    ensures NoHitBefore(b, target, attacker, r, c + 1)
  {
  }

  method IsSquareAttacked(b: Board, row: int, col: int, attacker: Color) returns (attacked: bool)
    ensures attacked == Attacked(b, Square(row, col), attacker)
  {
    ghost var target := Square(row, col);
    for r := 0 to 10
      invariant NoHitBefore(b, target, attacker, r, 0)
    {
      for c := 0 to 10
        invariant NoHitBefore(b, target, attacker, r, c)
      {
        var piece := b[r][c];
        if piece.Occupied? && piece.piece.color == attacker {
          var attackMoves := GetAttackMoves(b, piece.piece, r, c);
          if Square(row, col) in attackMoves {
            assert Hits(b, Square(r, c), target, attacker);
            return true;
          }
        }
        NoHitStep(b, target, attacker, r, c);
      }
    }
    return false;
  }
}
