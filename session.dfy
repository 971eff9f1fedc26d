/**
 * The game session: the globals `boardState`, `currentPlayer`, `selectedSquare`, `legalMoves`,
 * `isCheck` and `gameOver`, and the handlers that update them. The status text `endGame` shows is
 * kept as an `Outcome` value.
 */
module Session {
  import opened Pieces
  import opened Topology
  import opened Threats
  import opened Legality
  import opened Setup
  import opened GameState

  class Game {
    var board: Board
    var currentPlayer: Color
    /** The selected square, or none (`selectedSquare` is `null`). */
    var selected: Option<Square>
    var legalMoves: seq<Square>
    var isCheck: bool
    var gameOver: bool
    /** The message of `endGame`, once the game is over. */
    var outcome: Option<Outcome>

    /**
     * A selection is a playable square holding a piece of the side to move, and `legalMoves` are
     * that piece's legal destinations; without a selection there are no legal moves on show.
     * `isCheck` says whether the side to move is in check. The game has an outcome exactly when it
     * is over, and then nothing is selected.
     */
    ghost predicate Valid()
      reads this
    {
      && (selected.Some? ==>
            && IsOnBoard(selected.value.row, selected.value.col)
            && HoldsFriend(board, selected.value, currentPlayer)
            && legalMoves == LegalDestinations(board, selected.value))
      && (selected.None? ==> legalMoves == [])
      && isCheck == InCheck(board, currentPlayer)
      && (gameOver <==> outcome.Some?)
      && (gameOver ==> selected.None?)
    }

    /** The state `initializeGame` sets up: the starting position, White to move, nothing selected. */
    ghost predicate IsInitial()
      reads this
    {
      && board == InitialBoard && currentPlayer == White
      && selected == None && legalMoves == []
      && !isCheck && !gameOver && outcome == None
    }

    /** Page load: `initializeGame` runs once. */
    constructor ()
      ensures Valid() && IsInitial()
    {
      board := InitialBoard;
      currentPlayer := White;
      selected := None;
      legalMoves := [];
      isCheck := false;
      gameOver := false;
      outcome := None;
      InitialNotInCheck();
    }

    /** `initializeGame`, also run by the new-game button: a fresh copy of the starting position. */
    method InitializeGame()
      modifies this
      ensures Valid() && IsInitial()
    {
      board := InitialBoard;
      currentPlayer := White;
      selected := None;
      legalMoves := [];
      isCheck := false;
      gameOver := false;
      outcome := None;
      InitialNotInCheck();
    }

    /**
     * `clearSelection`. Afterwards the session is valid exactly when the check flag and the outcome
     * are, whatever the selection was.
     */
    method ClearSelection()
      modifies this
      ensures selected == None && legalMoves == []
      ensures Valid() <==> isCheck == InCheck(board, currentPlayer) && (gameOver <==> outcome.Some?)
      ensures board == old(board) && currentPlayer == old(currentPlayer) && isCheck == old(isCheck)
      ensures gameOver == old(gameOver) && outcome == old(outcome)
    {
      selected := None;
      legalMoves := [];
    }

    /** `selectPiece`: select the square of a piece of the side to move and compute its legal moves. */
    method SelectPiece(s: Square)
      requires Valid() && !gameOver
      requires IsOnBoard(s.row, s.col) && HoldsFriend(board, s, currentPlayer)
      modifies this
      ensures Valid()
      ensures selected == Some(s) && legalMoves == LegalDestinations(board, s)
      ensures board == old(board) && currentPlayer == old(currentPlayer) && isCheck == old(isCheck)
      ensures gameOver == old(gameOver) && outcome == old(outcome)
    {
      ClearSelection();
      selected := Some(s);
      legalMoves := GetLegalMovesForPiece(board, s.row, s.col);
    }

    /**
     * `switchPlayer`: the other side moves next, and `isCheck` says whether its king is attacked.
     * It keeps any selection, which then belongs to the side not moving; `movePiece`, its only
     * caller, clears the selection first, so that `Valid()` holds again afterwards.
     */
    method SwitchPlayer()
      modifies this
      ensures currentPlayer == Opponent(old(currentPlayer))
      ensures isCheck == InCheck(board, currentPlayer)
      ensures board == old(board) && selected == old(selected) && legalMoves == old(legalMoves)
      ensures gameOver == old(gameOver) && outcome == old(outcome)
    {
      currentPlayer := Opponent(currentPlayer);
      var kingPos := FindKing(board, currentPlayer);
      if kingPos.Some? {
        isCheck := IsSquareAttacked(board, kingPos.value.row, kingPos.value.col, Opponent(currentPlayer));
      } else {
        isCheck := false;
      }
    }

    /** `endGame`: the game is over with outcome `o`, and the selection is cleared. */
    method EndGame(o: Outcome)
      requires Valid()
      modifies this
      ensures Valid()
      ensures gameOver && outcome == Some(o)
      ensures selected == None && legalMoves == []
      ensures board == old(board) && currentPlayer == old(currentPlayer) && isCheck == old(isCheck)
    {
      gameOver := true;
      outcome := Some(o);
      ClearSelection();
    }

    /**
     * `checkGameState`: nothing once the game is over; otherwise the game ends exactly when the
     * verdict for the side to move is given, with that verdict as its outcome.
     */
    method CheckGameState()
      requires Valid()
      modifies this
      ensures Valid()
      ensures board == old(board) && currentPlayer == old(currentPlayer) && isCheck == old(isCheck)
      ensures old(gameOver) ==> gameOver && outcome == old(outcome) && selected == old(selected)
      ensures !old(gameOver) ==> outcome == GameVerdict(board, currentPlayer, isCheck)
      ensures outcome.None? ==> selected == old(selected) && legalMoves == old(legalMoves)
    {
      if gameOver {
        return;
      }
      var whiteKingPos := FindKing(board, White);
      if whiteKingPos.Some? && whiteKingPos.value.row == 0 && (whiteKingPos.value.col == 4 || whiteKingPos.value.col == 5) {
        EndGame(Crowning(White));
        return;
      }
      var blackKingPos := FindKing(board, Black);
      if blackKingPos.Some? && blackKingPos.value.row == 9 && (blackKingPos.value.col == 4 || blackKingPos.value.col == 5) {
        EndGame(Crowning(Black));
        return;
      }
      var hasAnyLegalMove := HasAnyLegalMove(board, currentPlayer);
      if !hasAnyLegalMove {
        var opponent := Opponent(currentPlayer);
        if isCheck {
          EndGame(Checkmate(opponent));
        } else {
          EndGame(Stalemate(opponent));
        }
      }
    }

    /**
     * `movePiece`: the piece on `from` goes to `to`, the selection is cleared, the turn passes and
     * the game state is checked for the side now to move.
     */
    method MovePiece(from: Square, to: Square)
      requires Valid() && InGrid(from.row, from.col) && InGrid(to.row, to.col)
      modifies this
      ensures Valid()
      ensures board == AfterMove(old(board), from, to)
      ensures currentPlayer == Opponent(old(currentPlayer)) && isCheck == InCheck(board, currentPlayer)
      ensures selected == None && legalMoves == []
      ensures old(gameOver) ==> gameOver && outcome == old(outcome)
      ensures !old(gameOver) ==> outcome == GameVerdict(board, currentPlayer, isCheck)
    {
      var piece := board[from.row][from.col];
      board := Put(board, to, piece);
      board := Put(board, from, Empty);
      ClearSelection();
      SwitchPlayer();
      CheckGameState();
    }

    /**
     * `handleSquareClick` on the playable square (row, col). Once the game is over nothing changes.
     * With a selection, a click on one of its legal moves plays it (after which the mover's king is
     * on the board and not attacked), and any click clears the selection. Without one, a click on a
     * piece of the side to move selects it and any other click does nothing.
     */
    method HandleSquareClick(row: int, col: int)
      requires Valid() && IsOnBoard(row, col)
      modifies this
      ensures Valid()
      ensures old(gameOver) ==>
        && board == old(board) && currentPlayer == old(currentPlayer) && isCheck == old(isCheck)
        && selected == old(selected) && legalMoves == old(legalMoves)
        && gameOver == old(gameOver) && outcome == old(outcome)
      ensures !old(gameOver) && old(selected).Some? && Square(row, col) in old(legalMoves) ==>
        && InGrid(old(selected).value.row, old(selected).value.col)
        && board == AfterMove(old(board), old(selected).value, Square(row, col))
        && FirstKing(board, old(currentPlayer)).Some? && !InCheck(board, old(currentPlayer))
        && currentPlayer == Opponent(old(currentPlayer)) && isCheck == InCheck(board, currentPlayer)
        && outcome == GameVerdict(board, currentPlayer, isCheck)
        && selected == None && legalMoves == []
      ensures !old(gameOver) && old(selected).Some? && Square(row, col) !in old(legalMoves) ==>
        && board == old(board) && currentPlayer == old(currentPlayer) && isCheck == old(isCheck)
        && gameOver == old(gameOver) && outcome == old(outcome)
        && selected == None && legalMoves == []
      ensures !old(gameOver) && old(selected).None? ==>
        && board == old(board) && currentPlayer == old(currentPlayer) && isCheck == old(isCheck)
        && gameOver == old(gameOver) && outcome == old(outcome)
        && if HoldsFriend(board, Square(row, col), currentPlayer)
           then selected == Some(Square(row, col)) && legalMoves == LegalDestinations(board, Square(row, col))
           else selected == None && legalMoves == []
    {
      if gameOver {
        return;
      }
      if selected.Some? {
        var from := selected.value;
        var isLegalMove := Square(row, col) in legalMoves;
        if isLegalMove {
          LegalMoveLeavesKingSafe(board, from, Square(row, col));
          MovePiece(from, Square(row, col));
        }
        ClearSelection();
      } else {
        var piece := board[row][col];
        if piece.Occupied? && piece.piece.color == currentPlayer {
          SelectPiece(Square(row, col));
        }
      }
    }
  }
}
