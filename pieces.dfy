/** Pieces, cells, squares and the 10x10 board array of the giraffe-chess engine. */
module Pieces {

  datatype Option<T> = None | Some(value: T)

  datatype Color = White | Black

  /** The side that is not `c`. */
  function Opponent(c: Color): (o: Color)
    ensures o != c
  {
    if c == White then Black else White
  }

  datatype Kind = King | Queen | Rook | Bishop | Knight | Pawn | Giraffe

  datatype Piece = Piece(kind: Kind, color: Color)

  /** One entry of the board array: `null` or a `{type, color}` record. */
  datatype Cell = Empty | Occupied(piece: Piece)

  /** A `[row, col]` pair as the move generators produce it; not necessarily inside the array. */
  datatype Square = Square(row: int, col: int)

  const Size: int := 10

  predicate InGrid(row: int, col: int) {
    0 <= row < Size && 0 <= col < Size
  }

  /** The board array: ten rows of ten cells, on-board or not. */
  type Board = b: seq<seq<Cell>> | |b| == Size && forall r :: 0 <= r < Size ==> |b[r]| == Size
    witness seq(10, _ => seq(10, _ => Empty))

  function At(b: Board, s: Square): Cell
    requires InGrid(s.row, s.col)
  {
    b[s.row][s.col]
  }

  /** `b` with the cell at `s` overwritten by `x`. */
  function Put(b: Board, s: Square, x: Cell): (r: Board)
    requires InGrid(s.row, s.col)
    ensures At(r, s) == x
    ensures forall i, j :: InGrid(i, j) && (i, j) != (s.row, s.col) ==> r[i][j] == b[i][j]
  {
    b[s.row := b[s.row][s.col := x]]
  }

  /** `board[r]?.[c] === null`: true only inside the array and only for an empty cell. */
  predicate IsNullCell(b: Board, row: int, col: int) {
    InGrid(row, col) && b[row][col] == Empty
  }

  predicate HoldsEnemy(b: Board, s: Square, color: Color) {
    InGrid(s.row, s.col) && At(b, s).Occupied? && At(b, s).piece.color != color
  }

  predicate HoldsFriend(b: Board, s: Square, color: Color) {
    InGrid(s.row, s.col) && At(b, s).Occupied? && At(b, s).piece.color == color
  }
}
