/**
 * Pseudo-legal moves: the attack pattern filtered by what stands on the target squares, and the
 * pawn's own rules (`getPseudoLegalMoves` and `getPawnMoves`). King safety is not considered here.
 */
module Moves {
  import opened Pieces
  import opened Topology
  import opened Rays
  import opened Attacks

  /** The row a pawn of `color` starts on, from which it may advance two squares. */
  function StartRow(color: Color): int {
    if color == White then 7 else 2
  }

  /** The filter of `getPawnMoves`: keep the target squares that hold a piece of the other colour. */
  function Captures(b: Board, targets: seq<Square>, color: Color): (kept: seq<Square>)
  {
    if targets == [] then []
    else (if HoldsEnemy(b, targets[0], color) then [targets[0]] else []) + Captures(b, targets[1..], color)
  }

  /** A target a non-pawn of `color` may move to: an empty cell or one holding the other colour. */
  predicate Admits(b: Board, s: Square, color: Color) {
    InGrid(s.row, s.col) && (At(b, s) == Empty || At(b, s).piece.color != color)
  }

  /** The filter of `getPseudoLegalMoves`: drop the target squares that hold a piece of the mover's colour. */
  function NonFriendly(b: Board, targets: seq<Square>, color: Color): (kept: seq<Square>)
  {
    if targets == [] then []
    else (if Admits(b, targets[0], color) then [targets[0]] else []) + NonFriendly(b, targets[1..], color)
  }

  /**
   * `getPawnMoves`: the diagonal captures, then the single step if that cell is `null` in the
   * array, then the double step from the start row if the second cell is `null` too. The steps
   * consult only the array, never `isSquareOnBoard`.
   */
  function PawnDestinations(b: Board, p: Piece, row: int, col: int): (moves: seq<Square>)
  {
    var dir := Forward(p.color);
    var captures := Captures(b, AttackSquares(b, p, row, col), p.color);
    var oneStep := row + dir;
    if IsNullCell(b, oneStep, col) then
      captures + [Square(oneStep, col)]
        + (if row == StartRow(p.color) && IsNullCell(b, oneStep + dir, col) then [Square(oneStep + dir, col)] else [])
    else captures
  }

  /** `getPseudoLegalMoves`: the pawn rules for a pawn, the attack pattern minus friendly squares otherwise. */
  function PseudoLegal(b: Board, p: Piece, row: int, col: int): (moves: seq<Square>)
  {
    if p.kind == Pawn then PawnDestinations(b, p, row, col)
    else NonFriendly(b, AttackSquares(b, p, row, col), p.color)
  }

  lemma {:induction false} CapturesExactly(b: Board, targets: seq<Square>, color: Color, s: Square)
    ensures s in Captures(b, targets, color) <==> s in targets && HoldsEnemy(b, s, color)
  {
    if targets != [] {
      CapturesExactly(b, targets[1..], color, s);
      assert s in targets <==> s == targets[0] || s in targets[1..];
    }
  }

  lemma {:induction false} NonFriendlyExactly(b: Board, targets: seq<Square>, color: Color, s: Square)
    ensures s in NonFriendly(b, targets, color) <==> s in targets && Admits(b, s, color)
  {
    if targets != [] {
      NonFriendlyExactly(b, targets[1..], color, s);
      assert s in targets <==> s == targets[0] || s in targets[1..];
    }
  }

  /**
   * The pawn's destinations, case by case: a forward diagonal on the board holding an enemy; the
   * square straight ahead if its cell is `null`; or, from the start row, the square two ahead if
   * both cells are `null`.
   */
  lemma PawnDestinationsExactly(b: Board, p: Piece, row: int, col: int, s: Square)
    requires p.kind == Pawn
    ensures var dir := Forward(p.color);
      s in PawnDestinations(b, p, row, col) <==>
        || (IsOnBoard(s.row, s.col) && s.row == row + dir && Abs(s.col - col) == 1 && HoldsEnemy(b, s, p.color))
        || (s == Square(row + dir, col) && IsNullCell(b, row + dir, col))
        || (s == Square(row + 2 * dir, col) && row == StartRow(p.color)
            && IsNullCell(b, row + dir, col) && IsNullCell(b, row + 2 * dir, col))
  {
    PawnCapturesExactly(b, p, row, col, s);
    var captures := Captures(b, AttackSquares(b, p, row, col), p.color);
    var dir := Forward(p.color);
    if IsNullCell(b, row + dir, col) {
      var two := if row == StartRow(p.color) && IsNullCell(b, row + dir + dir, col) then [Square(row + dir + dir, col)] else [];
      assert PawnDestinations(b, p, row, col) == captures + [Square(row + dir, col)] + two;
      assert s in captures + [Square(row + dir, col)] + two <==> s in captures || s == Square(row + dir, col) || s in two;
    }
  }

  /** The pawn's captures are exactly its forward diagonals on the board that hold an enemy. */
  lemma PawnCapturesExactly(b: Board, p: Piece, row: int, col: int, s: Square)
    requires p.kind == Pawn
    ensures s in Captures(b, AttackSquares(b, p, row, col), p.color) <==>
      IsOnBoard(s.row, s.col) && s.row == row + Forward(p.color) && Abs(s.col - col) == 1 && HoldsEnemy(b, s, p.color)
  {
    CapturesExactly(b, AttackSquares(b, p, row, col), p.color, s);
    PawnPattern(b, p, row, col, s);
  }

  /** A pawn never lands on a piece of its own colour, and a move off its column always takes an enemy. */
  lemma PawnNeverTakesFriend(b: Board, p: Piece, row: int, col: int, s: Square)
    requires p.kind == Pawn && s in PawnDestinations(b, p, row, col)
    ensures InGrid(s.row, s.col)
    ensures At(b, s) == Empty || At(b, s).piece.color != p.color
    ensures s.col != col ==> HoldsEnemy(b, s, p.color)
  {
    PawnDestinationsExactly(b, p, row, col, s);
  }

  /**
   * Because the pawn's step tests the array cell and not the board shape, a white pawn on (1, 3)
   * of an otherwise empty array may step to (0, 3), which is not a playable square.
   */
  lemma PawnMayStepOffBoard(b: Board)
    requires b == Put(seq(10, _ => seq(10, _ => Empty)), Square(1, 3), Occupied(Piece(Pawn, White)))
    ensures Square(0, 3) in PawnDestinations(b, Piece(Pawn, White), 1, 3)
    ensures !IsOnBoard(0, 3)
  {
    PawnDestinationsExactly(b, Piece(Pawn, White), 1, 3, Square(0, 3));
  }

  /**
   * The only pseudo-legal destinations off the playable board are pawn steps straight ahead: every
   * attack pattern, and so every capture, stays on the board.
   */
  lemma OffBoardOnlyPawnSteps(b: Board, p: Piece, row: int, col: int, t: Square)
    requires t in PseudoLegal(b, p, row, col) && !IsOnBoard(t.row, t.col)
    ensures p.kind == Pawn && t.col == col
    ensures t.row == row + Forward(p.color) || t.row == row + 2 * Forward(p.color)
  {
    if p.kind == Pawn {
      PawnDestinationsExactly(b, p, row, col, t);
    } else {
      NonPawnDestinations(b, p, row, col, t);
      AttackSquaresOnBoard(b, p, row, col);
    }
  }

  /** Every pseudo-legal destination lies inside the 10x10 array, so playing it is a valid board write. */
  lemma PseudoLegalInGrid(b: Board, p: Piece, row: int, col: int, s: Square)
    requires s in PseudoLegal(b, p, row, col)
    ensures InGrid(s.row, s.col)
  {
    if p.kind == Pawn {
      PawnDestinationsExactly(b, p, row, col, s);
    } else {
      NonFriendlyExactly(b, AttackSquares(b, p, row, col), p.color, s);
    }
  }

  /**
   * A non-pawn's destinations are exactly its attack squares that are empty or hold an enemy. In
   * particular a slider's blocking square (occupied, and in the attack pattern) is kept exactly
   * when it holds an enemy.
   */
  lemma NonPawnDestinations(b: Board, p: Piece, row: int, col: int, s: Square)
    requires p.kind != Pawn
    ensures s in PseudoLegal(b, p, row, col) <==> s in AttackSquares(b, p, row, col) && Admits(b, s, p.color)
    ensures s in AttackSquares(b, p, row, col) && HoldsEnemy(b, s, p.color) ==> s in PseudoLegal(b, p, row, col)
    ensures s in AttackSquares(b, p, row, col) && HoldsFriend(b, s, p.color) ==> s !in PseudoLegal(b, p, row, col)
  {
    NonFriendlyExactly(b, AttackSquares(b, p, row, col), p.color, s);
    AttackSquaresOnBoard(b, p, row, col);
  }

  /** `getPawnMoves`: the filtered attack moves, then the pushes of the single and the double step. */
  method GetPawnMoves(b: Board, p: Piece, row: int, col: int) returns (moves: seq<Square>)
    ensures moves == PawnDestinations(b, p, row, col)
  {
    var attacks := GetAttackMoves(b, p, row, col);
    moves := Captures(b, attacks, p.color);
    var dir := Forward(p.color);
    var oneStep := row + dir;
    if IsNullCell(b, oneStep, col) {
      moves := moves + [Square(oneStep, col)];
      var startRow := StartRow(p.color);
      if row == startRow && IsNullCell(b, oneStep + dir, col) {
        moves := moves + [Square(oneStep + dir, col)];
      }
    }
  }

  /** `getPseudoLegalMoves`: dispatch on the piece type. */
  method GetPseudoLegalMoves(b: Board, p: Piece, row: int, col: int) returns (moves: seq<Square>)
    ensures moves == PseudoLegal(b, p, row, col)
  {
    if p.kind == Pawn {
      moves := GetPawnMoves(b, p, row, col);
    } else {
      var attacks := GetAttackMoves(b, p, row, col);
      moves := NonFriendly(b, attacks, p.color);
    }
  }
}
