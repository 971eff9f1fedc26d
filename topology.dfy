/** The cross-shaped board: the 8x8 core plus two extension squares above it and two below it. */
module Topology {
  import opened Pieces

  /**
   * `isSquareOnBoard`: the 8x8 core (rows and columns 1..8) plus the four extension squares, rows 0
   * and 9 at columns 4 and 5. Written with ranges only; `OnBoardCases` states the same set as the
   * three cases the code distinguishes.
   */
  predicate IsOnBoard(row: int, col: int)
    ensures IsOnBoard(row, col) ==> InGrid(row, col)
  {
    0 <= row <= 9 && 1 <= col <= 8 && (1 <= row <= 8 || 4 <= col <= 5)
  }

  /** The board is the main 8x8 area, the top extension or the bottom extension, and nothing else. */
  lemma OnBoardCases(row: int, col: int)
    ensures IsOnBoard(row, col) <==>
      || (1 <= row <= 8 && 1 <= col <= 8)
      || (row == 0 && (col == 4 || col == 5))
      || (row == 9 && (col == 4 || col == 5))
  {
  }

  /** The board looks the same from both sides: mirroring rows or columns keeps it. */
  lemma OnBoardSymmetric(row: int, col: int)
    ensures IsOnBoard(row, col) <==> IsOnBoard(Size - 1 - row, col)
    ensures IsOnBoard(row, col) <==> IsOnBoard(row, Size - 1 - col)
  {
  }

  /** The squares outside the 8x8 core that are on the board are exactly the four extension squares. */
  lemma ExtensionSquares(row: int, col: int)
    requires IsOnBoard(row, col) && !(1 <= row <= 8 && 1 <= col <= 8)
    ensures (row, col) in {(0, 4), (0, 5), (9, 4), (9, 5)}
  {
  }
}
