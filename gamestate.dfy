/**
 * The end-of-game rules of `checkGameState`: a king that reaches the far extension squares wins by
 * crowning; otherwise a side to move without a legal move loses, by checkmate when in check and by
 * "stalemate" when not.
 */
module GameState {
  import opened Pieces
  import opened Topology
  import opened Moves
  import opened Threats
  import opened Legality

  /** The message `endGame` shows, and who it names as the winner. */
  datatype Outcome = Crowning(winner: Color) | Checkmate(winner: Color) | Stalemate(winner: Color)

  /** The row of the extension squares a king of `color` must reach: row 0 for White, row 9 for Black. */
  function CrowningRow(color: Color): int {
    if color == White then 0 else 9
  }

  /** The king of `color` found by `findKing` stands on one of the extension squares of its crowning row. */
  ghost predicate KingCrowned(b: Board, color: Color) {
    var k := FirstKing(b, color);
    k.Some? && k.value.row == CrowningRow(color) && 4 <= k.value.col <= 5
  }

  /** The cell (r, c) is a playable square holding a piece of `player` that has a legal move. */
  ghost predicate CanMoveFrom(b: Board, player: Color, s: Square) {
    && IsOnBoard(s.row, s.col)
    && At(b, s).Occupied?
    && At(b, s).piece.color == player
    && |LegalDestinations(b, s)| > 0
  }

  /** Some piece of `player` on a playable square has a legal move. */
  ghost predicate HasLegalMove(b: Board, player: Color) {
    exists s :: CanMoveFrom(b, player, s)
  }

  /**
   * The verdict of `checkGameState` for `player` to move, `inCheck` being the flag `switchPlayer`
   * computed: White's crowning first, then Black's, then checkmate or stalemate for the opponent
   * when no legal move exists; none while the game goes on.
   */
  ghost function GameVerdict(b: Board, player: Color, inCheck: bool): Option<Outcome> {
    if KingCrowned(b, White) then Some(Crowning(White))
    else if KingCrowned(b, Black) then Some(Crowning(Black))
    else if !HasLegalMove(b, player) then
      Some(if inCheck then Checkmate(Opponent(player)) else Stalemate(Opponent(player)))
    else None
  }

  /**
   * A side to move has no legal move exactly when every pseudo-legal move of each of its pieces on
   * a playable square leaves its king missing or attacked.
   */
  lemma NoLegalMoveExactly(b: Board, player: Color)
    ensures !HasLegalMove(b, player) <==>
      forall s: Square, t: Square ::
        (&& IsOnBoard(s.row, s.col) && HoldsFriend(b, s, player)
         && t in PseudoLegal(b, At(b, s).piece, s.row, s.col) && InGrid(t.row, t.col))
        ==> !KingSafeAfter(b, s, t, player)
  {
    if HasLegalMove(b, player) {
      var s :| CanMoveFrom(b, player, s);
      var t := LegalDestinations(b, s)[0];
      LegalDestinationsExactly(b, s, t);
    } else {
      forall s: Square, t: Square | IsOnBoard(s.row, s.col) && HoldsFriend(b, s, player)
        && t in PseudoLegal(b, At(b, s).piece, s.row, s.col) && InGrid(t.row, t.col)
        ensures !KingSafeAfter(b, s, t, player)
      {
        LegalDestinationsExactly(b, s, t);
        assert !CanMoveFrom(b, player, s);
      }
    }
  }

  /** A king of `color` alone on its crowning extension square ends the game for its side, whoever is to move. */
  lemma CrowningWins(b: Board, color: Color, k: Square, player: Color, inCheck: bool)
    requires IsKing(b, color, k) && k.row == CrowningRow(color) && 4 <= k.col <= 5
    requires forall t :: IsKing(b, color, t) ==> t == k
    requires color == Black ==> !KingCrowned(b, White)
    ensures GameVerdict(b, player, inCheck) == Some(Crowning(color))
  {
    FirstKingIs(b, color, Some(k));
  }

  /**
   * Without a crowning, the game ends exactly when the side to move has no legal move, and the
   * opponent is named winner either way: by checkmate when in check, by stalemate otherwise.
   */
  lemma NoCrowningVerdict(b: Board, player: Color, inCheck: bool)
    requires !KingCrowned(b, White) && !KingCrowned(b, Black)
    ensures GameVerdict(b, player, inCheck).Some? <==> !HasLegalMove(b, player)
    ensures GameVerdict(b, player, inCheck).Some? ==>
      GameVerdict(b, player, inCheck).value.winner == Opponent(player)
      && (GameVerdict(b, player, inCheck).value.Checkmate? <==> inCheck)
  {
  }

  /**
   * Every legal destination counts for the end-of-game scan, whether or not it is a playable square
   * that could be clicked: while one exists, neither checkmate nor stalemate is declared.
   */
  lemma AnyLegalDestinationCounts(b: Board, player: Color, s: Square, t: Square, inCheck: bool)
    requires IsOnBoard(s.row, s.col) && HoldsFriend(b, s, player)
    requires t in LegalDestinations(b, s)
    ensures HasLegalMove(b, player)
    ensures !KingCrowned(b, White) && !KingCrowned(b, Black) ==> GameVerdict(b, player, inCheck) == None
  {
    assert CanMoveFrom(b, player, s);
  }

  /** No cell before (r, c) in the scan is one from which `player` can move. */
  ghost predicate NoMoverBefore(b: Board, player: Color, r: int, c: int) {
    forall s :: CanMoveFrom(b, player, s) ==> s.row > r || (s.row == r && s.col >= c)
  }

  /** One cell of the scan: a cell from which `player` cannot move keeps the scanned part free of movers. */
  lemma NoMoverStep(b: Board, player: Color, r: int, c: int)
    requires NoMoverBefore(b, player, r, c) && !CanMoveFrom(b, player, Square(r, c))
    ensures NoMoverBefore(b, player, r, c + 1)
  {
  }

  /**
   * The nested loops of `checkGameState`: skip off-board cells, and stop at the first piece of
   * `player` whose legal moves are not empty.
   */
  method HasAnyLegalMove(b: Board, player: Color) returns (hasAnyLegalMove: bool)
    ensures hasAnyLegalMove == HasLegalMove(b, player)
  {
    hasAnyLegalMove := false;
    for r := 0 to 10
      invariant NoMoverBefore(b, player, r, 0)
    {
      for c := 0 to 10
        invariant !hasAnyLegalMove && NoMoverBefore(b, player, r, c)
      {
        if !IsOnBoard(r, c) {
          NoMoverStep(b, player, r, c);
          continue;
        }
        var piece := b[r][c];
        if piece.Occupied? && piece.piece.color == player {
          var moves := GetLegalMovesForPiece(b, r, c);
          if |moves| > 0 {
            assert CanMoveFrom(b, player, Square(r, c));
            hasAnyLegalMove := true;
            break;
          }
        }
        NoMoverStep(b, player, r, c);
      }
      if hasAnyLegalMove {
        break;
      }
    }
  }
}
