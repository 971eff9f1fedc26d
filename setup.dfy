/** The starting position `initialBoardState`: giraffes on the extension squares, then the usual army. */
module Setup {
  import opened Pieces
  import opened Topology
  import opened Rays
  import opened Attacks
  import opened Moves
  import opened Threats
  import opened Legality

  /** Row 0 or 9: the two giraffes of `color` on the extension squares (columns 4 and 5). */
  function GiraffeRank(color: Color): seq<Cell> {
    [Empty, Empty, Empty, Empty, Occupied(Piece(Giraffe, color)), Occupied(Piece(Giraffe, color)),
     Empty, Empty, Empty, Empty]
  }

  /** Row 1 or 8: rook, knight, bishop, queen, king, bishop, knight, rook on columns 1..8. */
  function BackRank(color: Color): seq<Cell> {
    [Empty, Occupied(Piece(Rook, color)), Occupied(Piece(Knight, color)), Occupied(Piece(Bishop, color)),
     Occupied(Piece(Queen, color)), Occupied(Piece(King, color)), Occupied(Piece(Bishop, color)),
     Occupied(Piece(Knight, color)), Occupied(Piece(Rook, color)), Empty]
  }

  /** Row 2 or 7: eight pawns on columns 1..8. */
  function PawnRank(color: Color): seq<Cell> {
    [Empty] + seq(8, _ => Occupied(Piece(Pawn, color))) + [Empty]
  }

  const EmptyRank: seq<Cell> := seq(10, _ => Empty)

  /** Black on rows 0..2, four empty rows, White on rows 7..9. */
  const InitialBoard: Board := [GiraffeRank(Black), BackRank(Black), PawnRank(Black),
    EmptyRank, EmptyRank, EmptyRank, EmptyRank,
    PawnRank(White), BackRank(White), GiraffeRank(White)]

  /** Every piece of the starting position stands on a playable square. */
  lemma InitialPiecesOnBoard(row: int, col: int)
    requires InGrid(row, col) && InitialBoard[row][col] != Empty
    ensures IsOnBoard(row, col)
  {
  }

  /** The two sides start as mirror images: row `r` of one side is row `9 - r` of the other. */
  lemma InitialMirror(row: int, col: int)
    requires InGrid(row, col)
    ensures InitialBoard[row][col] == Empty <==> InitialBoard[Size - 1 - row][col] == Empty
    ensures InitialBoard[row][col].Occupied? ==>
      InitialBoard[Size - 1 - row][col] == Occupied(Piece(InitialBoard[row][col].piece.kind, Opponent(InitialBoard[row][col].piece.color)))
  {
  }

  /** `findKing` finds White's king on column 5 of its back rank in the starting position. */
  lemma InitialWhiteKing()
    ensures FirstKing(InitialBoard, White) == Some(Square(8, 5))
  {
    FirstKingIs(InitialBoard, White, Some(Square(8, 5)));
  }

  /** `findKing` finds Black's king on column 5 of its back rank in the starting position. */
  lemma InitialBlackKing()
    ensures FirstKing(InitialBoard, Black) == Some(Square(1, 5))
  {
    FirstKingIs(InitialBoard, Black, Some(Square(1, 5)));
  }

  /** In the starting position the white pawn on (7, 4) may advance one or two squares, and nothing else. */
  lemma InitialPawnDoubleStep()
    ensures PawnDestinations(InitialBoard, Piece(Pawn, White), 7, 4) == [Square(6, 4), Square(5, 4)]
  {
    var offsets := PawnCaptureOffsets(White);
    assert offsets == [Offset(-1, -1), Offset(-1, 1)];
    assert LeaperTargets(7, 4, offsets[2..]) == [];
    assert LeaperTargets(7, 4, offsets[1..]) == [Square(6, 5)];
    assert LeaperTargets(7, 4, offsets) == [Square(6, 3), Square(6, 5)];
    var targets := [Square(6, 3), Square(6, 5)];
    assert Captures(InitialBoard, targets[2..], White) == [];
    assert Captures(InitialBoard, targets[1..], White) == [];
    assert Captures(InitialBoard, targets, White) == [];
  }

  /** Where Black stands in the starting position: giraffes on row 0, pieces on row 1, pawns on row 2. */
  lemma InitialBlackRows(s: Square)
    requires HoldsFriend(InitialBoard, s, Black)
    ensures 0 <= s.row <= 2 && 1 <= s.col <= 8
    ensures s.row == 0 ==> At(InitialBoard, s).piece.kind == Giraffe
    ensures s.row == 1 ==> At(InitialBoard, s).piece.kind != Giraffe
    ensures s.row == 2 ==> At(InitialBoard, s).piece.kind == Pawn
  {
  }

  /** Rows 1 and 2 are full on columns 1..8, and row 0 holds the giraffes on columns 4 and 5. */
  lemma InitialBlackFull(k: int)
    requires 1 <= k <= 8
    ensures InitialBoard[1][k] != Empty && InitialBoard[2][k] != Empty
    ensures 4 <= k <= 5 ==> InitialBoard[0][k] != Empty
  {
  }

  /** A black piece on row 1 of the starting position is surrounded by pieces or off-board cells. */
  lemma InitialBackRankHemmedIn(col: int)
    requires 1 <= col <= 8
    ensures HemmedIn(InitialBoard, 1, col)
  {
    forall d: Offset | IsUnitStep(d)
      ensures !IsOnBoard(1 + d.dr, col + d.dc) || InitialBoard[1 + d.dr][col + d.dc] != Empty
    {
      if IsOnBoard(1 + d.dr, col + d.dc) {
        InitialBlackFull(col + d.dc);
      }
    }
  }

  /** Rows 0..2 of `b` are those of `a`. */
  ghost predicate SameBlackCamp(b: Board, a: Board) {
    forall r, c :: 0 <= r <= 2 && 0 <= c < Size ==> b[r][c] == a[r][c]
  }

  /** Black's camp, rows 0..2, is as in `start`, and Black has no piece elsewhere. */
  ghost predicate BlackCampIntact(b: Board, start: Board) {
    && SameBlackCamp(b, start)
    && (forall s :: HoldsFriend(b, s, Black) ==> s.row <= 2)
  }

  /** With Black's camp intact, a black piece on row 1 is still surrounded by pieces or off-board cells. */
  lemma CampHemmedIn(b: Board, col: int)
    requires BlackCampIntact(b, InitialBoard) && 1 <= col <= 8
    ensures HemmedIn(b, 1, col)
  {
    InitialBackRankHemmedIn(col);
    forall d: Offset | IsUnitStep(d)
      ensures !IsOnBoard(1 + d.dr, col + d.dc) || b[1 + d.dr][col + d.dc] != Empty
    {
      if IsOnBoard(1 + d.dr, col + d.dc) {
        assert b[1 + d.dr][col + d.dc] == InitialBoard[1 + d.dr][col + d.dc];
      }
    }
  }

  /**
   * While Black's camp is intact, each black piece is one of the starting position's: on rows
   * 0..2, a giraffe on row 0, anything but a giraffe on row 1 and a pawn on row 2.
   */
  lemma CampPiece(b: Board, s: Square)
    requires BlackCampIntact(b, InitialBoard) && HoldsFriend(b, s, Black)
    ensures 0 <= s.row <= 2 && 1 <= s.col <= 8
    ensures s.row == 0 ==> At(b, s).piece.kind == Giraffe
    ensures s.row == 1 ==> At(b, s).piece.kind != Giraffe
    ensures s.row == 2 ==> At(b, s).piece.kind == Pawn
  {
    assert b[s.row][s.col] == InitialBoard[s.row][s.col];
    InitialBlackRows(s);
  }

  /** While Black's camp is intact, no black piece attacks beyond row 4. */
  lemma CampReach(b: Board, s: Square, t: Square)
    requires BlackCampIntact(b, InitialBoard) && HoldsFriend(b, s, Black)
    requires t in AttackSquares(b, At(b, s).piece, s.row, s.col)
    ensures t.row <= 4
  {
    CampPiece(b, s);
    if s.row == 1 {
      CampHemmedIn(b, s.col);
    }
    AttackReach(b, At(b, s).piece, s.row, s.col, t);
  }

  /** While Black's camp is intact, a white king found beyond row 4 is not in check. */
  lemma CampLeavesWhiteSafe(b: Board, k: Square)
    requires BlackCampIntact(b, InitialBoard) && FirstKing(b, White) == Some(k) && k.row > 4
    ensures !InCheck(b, White)
  {
    if Attacked(b, k, Black) {
      var s :| Hits(b, s, k, Black);
      CampReach(b, s, k);
    }
  }

  lemma InitialCampIntact()
    ensures BlackCampIntact(InitialBoard, InitialBoard)
  {
    forall s | HoldsFriend(InitialBoard, s, Black) ensures s.row <= 2 {
      InitialBlackRows(s);
    }
  }

  /** White, to move first, does not start in check. */
  lemma InitialNotInCheck()
    ensures !InCheck(InitialBoard, White)
  {
    var b := InitialBoard;
    InitialWhiteKing();
    InitialCampIntact();
    CampLeavesWhiteSafe(b, Square(8, 5));
  }

  /** The only white king of the starting position stands on (8, 5). */
  lemma InitialWhiteKingOnly(t: Square)
    requires IsKing(InitialBoard, White, t)
    ensures t == Square(8, 5)
  {
  }

  /** After the white pawn on (7, 4) steps to `to`, Black's camp is intact and White's king is found on (8, 5). */
  lemma AfterOpeningPawnStep(to: Square)
    requires to == Square(6, 4) || to == Square(5, 4)
    ensures BlackCampIntact(AfterMove(InitialBoard, Square(7, 4), to), InitialBoard)
    ensures FirstKing(AfterMove(InitialBoard, Square(7, 4), to), White) == Some(Square(8, 5))
  {
    var from := Square(7, 4);
    var after := AfterMove(InitialBoard, from, to);
    forall s | HoldsFriend(after, s, Black) ensures s.row <= 2 {
      assert s != from && s != to;
      InitialBlackRows(s);
    }
    forall t | IsKing(after, White, t) ensures !ScansBefore(t, Square(8, 5)) {
      assert t != from && t != to;
      InitialWhiteKingOnly(t);
    }
    FirstKingIs(after, White, Some(Square(8, 5)));
  }

  /** Either opening step of the white pawn on (7, 4) leaves White's king safe. */
  lemma OpeningPawnStepKeeps(to: Square)
    requires to == Square(6, 4) || to == Square(5, 4)
    ensures Keeps(InitialBoard, Square(7, 4), White, to)
  {
    AfterOpeningPawnStep(to);
    CampLeavesWhiteSafe(AfterMove(InitialBoard, Square(7, 4), to), Square(8, 5));
  }

  /** In the starting position the legal moves of the white pawn on (7, 4) are exactly (6, 4) and (5, 4). */
  lemma InitialPawnLegalMoves()
    ensures LegalDestinations(InitialBoard, Square(7, 4)) == [Square(6, 4), Square(5, 4)]
  {
    var from := Square(7, 4);
    var moves := [Square(6, 4), Square(5, 4)];
    InitialPawnDoubleStep();
    OpeningPawnStepKeeps(moves[0]);
    OpeningPawnStepKeeps(moves[1]);
    SafeMovesUnfold(InitialBoard, from, White, moves);
    SafeMovesUnfold(InitialBoard, from, White, moves[1..]);
    assert moves[1..][1..] == [];
  }
}
