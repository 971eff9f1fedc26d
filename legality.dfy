/**
 * The legality filter of `getLegalMovesForPiece`: each pseudo-legal move is played on a copy of
 * the board and kept only if the mover's king is then found and not attacked.
 */
module Legality {
  import opened Pieces
  import opened Topology
  import opened Moves
  import opened Threats

  /** The board after the piece on `from` moves to `to`: `to` takes the mover, then `from` is emptied. */
  function AfterMove(b: Board, from: Square, to: Square): (after: Board)
    requires InGrid(from.row, from.col) && InGrid(to.row, to.col)
    ensures At(after, from) == Empty
    ensures from != to ==> At(after, to) == At(b, from)
    ensures forall i, j :: InGrid(i, j) && (i, j) != (from.row, from.col) && (i, j) != (to.row, to.col) ==>
      after[i][j] == b[i][j]
  {
    Put(Put(b, to, At(b, from)), from, Empty)
  }

  /** After moving from `from` to `to`, the scan finds a king of `color` and it is not attacked. */
  ghost predicate KingSafeAfter(b: Board, from: Square, to: Square, color: Color)
    requires InGrid(from.row, from.col) && InGrid(to.row, to.col)
  {
    var after := AfterMove(b, from, to);
    FirstKing(after, color).Some? && !InCheck(after, color)
  }

  /** The candidate `to` survives the filter. */
  ghost predicate Keeps(b: Board, from: Square, color: Color, to: Square)
    requires InGrid(from.row, from.col)
  {
    InGrid(to.row, to.col) && KingSafeAfter(b, from, to, color)
  }

  /** The loop of `getLegalMovesForPiece`: the candidates, in order, that leave the mover's king safe. */
  ghost function SafeMoves(b: Board, from: Square, color: Color, moves: seq<Square>): seq<Square>
    requires InGrid(from.row, from.col)
  {
    if moves == [] then []
    else (if Keeps(b, from, color, moves[0]) then [moves[0]] else []) + SafeMoves(b, from, color, moves[1..])
  }

  /** `getLegalMovesForPiece`: nothing for an empty cell, otherwise the safe pseudo-legal moves. */
  ghost function LegalDestinations(b: Board, from: Square): seq<Square>
    requires InGrid(from.row, from.col)
  {
    match At(b, from)
    case Empty => []
    case Occupied(p) => SafeMoves(b, from, p.color, PseudoLegal(b, p, from.row, from.col))
  }

  /** `xs` is `ys` with some elements left out, the rest in the same order. */
  predicate IsSubsequence<T(==)>(xs: seq<T>, ys: seq<T>)
    decreases |ys|
  {
    if xs == [] then true
    else if ys == [] then false
    else if xs[0] == ys[0] then IsSubsequence(xs[1..], ys[1..])
    else IsSubsequence(xs, ys[1..])
  }

  lemma {:induction false} SafeMovesSubsequence(b: Board, from: Square, color: Color, moves: seq<Square>)
    requires InGrid(from.row, from.col)
    ensures IsSubsequence(SafeMoves(b, from, color, moves), moves)
  {
    if moves != [] {
      SafeMovesSubsequence(b, from, color, moves[1..]);
      var rest := SafeMoves(b, from, color, moves[1..]);
      if Keeps(b, from, color, moves[0]) {
        assert ([moves[0]] + rest)[1..] == rest;
      } else {
        assert SafeMoves(b, from, color, moves) == rest;
        SkipFirst(rest, moves);
      }
    }
  }

  /** Leaving out the head of `ys` keeps `xs` a subsequence. */
  lemma {:induction false} SkipFirst<T>(xs: seq<T>, ys: seq<T>)
    requires ys != [] && IsSubsequence(xs, ys[1..])
    ensures IsSubsequence(xs, ys)
    decreases |ys|, 0
  {
    if xs != [] && xs[0] == ys[0] {
      SubsequenceTail(xs, ys[1..]);
    }
  }

  /** A subsequence with its head removed is still a subsequence. */
  lemma {:induction false} SubsequenceTail<T>(xs: seq<T>, ys: seq<T>)
    requires xs != [] && IsSubsequence(xs, ys)
    ensures IsSubsequence(xs[1..], ys)
    decreases |ys|, 1
  {
    if xs[0] != ys[0] {
      SubsequenceTail(xs, ys[1..]);
    }
    SkipFirst(xs[1..], ys);
  }

  lemma {:induction false} SafeMovesExactly(b: Board, from: Square, color: Color, moves: seq<Square>, s: Square)
    requires InGrid(from.row, from.col)
    ensures s in SafeMoves(b, from, color, moves) <==> s in moves && Keeps(b, from, color, s)
  {
    if moves != [] {
      SafeMovesExactly(b, from, color, moves[1..], s);
      assert s in moves <==> s == moves[0] || s in moves[1..];
    }
  }

  /**
   * The legal moves of the piece on `from` are its pseudo-legal moves in their order, with exactly
   * those removed after which its king is missing or attacked; an empty cell has none.
   */
  lemma LegalDestinationsExactly(b: Board, from: Square, s: Square)
    requires InGrid(from.row, from.col)
    ensures At(b, from) == Empty ==> LegalDestinations(b, from) == []
    ensures At(b, from).Occupied? ==>
      var p := At(b, from).piece;
      && IsSubsequence(LegalDestinations(b, from), PseudoLegal(b, p, from.row, from.col))
      && (s in LegalDestinations(b, from) <==>
          s in PseudoLegal(b, p, from.row, from.col) && InGrid(s.row, s.col) && KingSafeAfter(b, from, s, p.color))
  {
    if At(b, from).Occupied? {
      var p := At(b, from).piece;
      SafeMovesSubsequence(b, from, p.color, PseudoLegal(b, p, from.row, from.col));
      SafeMovesExactly(b, from, p.color, PseudoLegal(b, p, from.row, from.col), s);
    }
  }

  /** A legal move never leaves the mover's king missing or in check. */
  lemma LegalMoveLeavesKingSafe(b: Board, from: Square, to: Square)
    requires InGrid(from.row, from.col) && to in LegalDestinations(b, from)
    ensures At(b, from).Occupied? && InGrid(to.row, to.col)
    ensures var color := At(b, from).piece.color;
      FirstKing(AfterMove(b, from, to), color).Some? && !InCheck(AfterMove(b, from, to), color)
  {
    LegalDestinationsExactly(b, from, to);
  }

  /** A filter that keeps no candidate returns nothing. */
  lemma {:induction false} SafeMovesNone(b: Board, from: Square, color: Color, moves: seq<Square>)
    requires InGrid(from.row, from.col)
    requires forall m :: m in moves ==> !Keeps(b, from, color, m)
    ensures SafeMoves(b, from, color, moves) == []
  {
    if moves != [] {
      assert moves[0] in moves;
      SafeMovesNone(b, from, color, moves[1..]);
    }
  }

  /** Moving a piece that is not a king never creates a king of `color`. */
  lemma NoKingAppears(b: Board, from: Square, to: Square, color: Color)
    requires InGrid(from.row, from.col) && InGrid(to.row, to.col)
    requires At(b, from) != Occupied(Piece(King, color))
    requires forall s :: !IsKing(b, color, s)
    ensures forall s :: !IsKing(AfterMove(b, from, to), color, s)
  {
    var after := AfterMove(b, from, to);
    forall s: Square | InGrid(s.row, s.col) ensures !IsKing(after, color, s) {
      if s != from && s != to {
        assert !IsKing(b, color, s);
      }
    }
  }

  /**
   * A side with no king on the board cannot move any other piece: the filter requires the king to
   * be found after the move.
   */
  lemma KinglessSideCannotMove(b: Board, from: Square)
    requires InGrid(from.row, from.col) && At(b, from).Occupied? && At(b, from).piece.kind != King
    requires forall s :: !IsKing(b, At(b, from).piece.color, s)
    ensures LegalDestinations(b, from) == []
  {
    var p := At(b, from).piece;
    var moves := PseudoLegal(b, p, from.row, from.col);
    forall m | m in moves ensures !Keeps(b, from, p.color, m) {
      if InGrid(m.row, m.col) {
        NoKingAppears(b, from, m, p.color);
        FirstKingIs(AfterMove(b, from, m), p.color, None);
      }
    }
    SafeMovesNone(b, from, p.color, moves);
  }

  /** One iteration of the candidate loop: candidate `i` is appended exactly when the filter keeps it. */
  lemma SafeStep(b: Board, from: Square, color: Color, moves: seq<Square>, i: int, done: seq<Square>)
    requires InGrid(from.row, from.col) && 0 <= i < |moves|
    requires done + SafeMoves(b, from, color, moves[i..]) == SafeMoves(b, from, color, moves)
    ensures if Keeps(b, from, color, moves[i])
      then (done + [moves[i]]) + SafeMoves(b, from, color, moves[i + 1..]) == SafeMoves(b, from, color, moves)
      else done + SafeMoves(b, from, color, moves[i + 1..]) == SafeMoves(b, from, color, moves)
  {
    SafeMovesUnfold(b, from, color, moves[i..]);
    assert moves[i..][1..] == moves[i + 1..];
  }

  lemma SafeMovesUnfold(b: Board, from: Square, color: Color, moves: seq<Square>)
    requires InGrid(from.row, from.col) && moves != []
    ensures SafeMoves(b, from, color, moves)
      == (if Keeps(b, from, color, moves[0]) then [moves[0]] else []) + SafeMoves(b, from, color, moves[1..])
  {
  }

  /**
   * `getLegalMovesForPiece` on the board `b` (the session's `boardState`): for each candidate, copy
   * the board, move the piece on the copy, look for the mover's king and keep the move only if
   * that king is found and not attacked.
   */
  method GetLegalMovesForPiece(b: Board, row: int, col: int) returns (result: seq<Square>)
    requires InGrid(row, col)
    ensures result == LegalDestinations(b, Square(row, col))
  {
    var from := Square(row, col);
    var cell := b[row][col];
    if cell == Empty {
      return [];
    }
    var piece := cell.piece;
    var pseudoLegalMoves := GetPseudoLegalMoves(b, piece, row, col);
    result := [];
    for i := 0 to |pseudoLegalMoves|
      invariant result + SafeMoves(b, from, piece.color, pseudoLegalMoves[i..])
        == SafeMoves(b, from, piece.color, pseudoLegalMoves)
    {
      SafeStep(b, from, piece.color, pseudoLegalMoves, i, result);
      var move := pseudoLegalMoves[i];
      PseudoLegalInGrid(b, piece, row, col, move);
      var tempBoard := b;
      tempBoard := Put(tempBoard, move, At(tempBoard, from));
      tempBoard := Put(tempBoard, from, Empty);
      assert tempBoard == AfterMove(b, from, move);
      var kingPos := FindKing(tempBoard, piece.color);
      if kingPos.Some? {
        var attacked := IsSquareAttacked(tempBoard, kingPos.value.row, kingPos.value.col, Opponent(piece.color));
        if !attacked {
          result := result + [move];
        }
      }
    }
  }
}
