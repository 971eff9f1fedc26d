/**
 * Attack patterns: the squares a piece threatens, ignoring what stands on them
 * (`getAttackMoves` and its leaper and slider helpers).
 */
module Attacks {
  import opened Pieces
  import opened Topology
  import opened Rays

  const KnightOffsets: seq<Offset> :=
    [Offset(-2, -1), Offset(-2, 1), Offset(-1, -2), Offset(-1, 2),
     Offset(1, -2), Offset(1, 2), Offset(2, -1), Offset(2, 1)]

  const KingOffsets: seq<Offset> :=
    [Offset(-1, -1), Offset(-1, 0), Offset(-1, 1), Offset(0, -1),
     Offset(0, 1), Offset(1, -1), Offset(1, 0), Offset(1, 1)]

  /** The long leg of the giraffe's leap; the code uses 4. */
  const GiraffeLeap: int := 4

  const GiraffeOffsets: seq<Offset> :=
    [Offset(-GiraffeLeap, -1), Offset(-GiraffeLeap, 1), Offset(GiraffeLeap, -1), Offset(GiraffeLeap, 1),
     Offset(-1, -GiraffeLeap), Offset(1, -GiraffeLeap), Offset(-1, GiraffeLeap), Offset(1, GiraffeLeap)]

  const RookDirections: seq<Offset> := [Offset(-1, 0), Offset(1, 0), Offset(0, -1), Offset(0, 1)]

  const BishopDirections: seq<Offset> := [Offset(-1, -1), Offset(-1, 1), Offset(1, -1), Offset(1, 1)]

  /** Row direction a pawn of `color` moves in: white towards row 0, black towards row 9. */
  function Forward(color: Color): int {
    if color == White then -1 else 1
  }

  /** The pawn's two forward diagonals, left one first, as the loop over `[col - 1, col + 1]` visits them. */
  function PawnCaptureOffsets(color: Color): seq<Offset> {
    [Offset(Forward(color), -1), Offset(Forward(color), 1)]
  }

  /**
   * The leaper loop: each offset, in order, translated by the origin and kept when it lands on the
   * board. The result is exactly the translated offset set intersected with the board.
   */
  function LeaperTargets(row: int, col: int, offsets: seq<Offset>): (targets: seq<Square>)
  {
    if offsets == [] then []
    else
      var s := Next(Square(row, col), offsets[0]);
      (if IsOnBoard(s.row, s.col) then [s] else []) + LeaperTargets(row, col, offsets[1..])
  }

  /** A leaper reaches exactly the on-board translates of its offsets. */
  lemma {:induction false} LeaperTargetsExactly(row: int, col: int, offsets: seq<Offset>, s: Square)
    ensures s in LeaperTargets(row, col, offsets) <==>
      IsOnBoard(s.row, s.col) && exists o :: o in offsets && s == Next(Square(row, col), o)
  {
    if offsets != [] {
      LeaperTargetsExactly(row, col, offsets[1..], s);
      assert forall o :: o in offsets <==> o == offsets[0] || o in offsets[1..];
    }
  }

  /** `getSlidingMoves`: the rays from the origin in each direction, concatenated in order. */
  function SlidingTargets(b: Board, row: int, col: int, directions: seq<Offset>): (targets: seq<Square>)
    requires forall d :: d in directions ==> IsUnitStep(d)
  {
    if directions == [] then []
    else
      var d := directions[0];
      Ray(b, Square(row + d.dr, col + d.dc), d) + SlidingTargets(b, row, col, directions[1..])
  }

  /** `getAttackMoves`: the attack pattern of `p` standing on (row, col). */
  function AttackSquares(b: Board, p: Piece, row: int, col: int): (targets: seq<Square>)
  {
    match p.kind
    case Pawn => LeaperTargets(row, col, PawnCaptureOffsets(p.color))
    case Knight => LeaperTargets(row, col, KnightOffsets)
    case Rook => SlidingTargets(b, row, col, RookDirections)
    case Bishop => SlidingTargets(b, row, col, BishopDirections)
    case Queen => SlidingTargets(b, row, col, RookDirections) + SlidingTargets(b, row, col, BishopDirections)
    case King => LeaperTargets(row, col, KingOffsets)
    case Giraffe => LeaperTargets(row, col, GiraffeOffsets)
  }

  lemma {:induction false} SlidingOnBoard(b: Board, row: int, col: int, directions: seq<Offset>)
    requires forall d :: d in directions ==> IsUnitStep(d)
    ensures forall s :: s in SlidingTargets(b, row, col, directions) ==> IsOnBoard(s.row, s.col)
  {
    if directions != [] {
      var d := directions[0];
      RayOnBoard(b, Square(row + d.dr, col + d.dc), d);
      SlidingOnBoard(b, row, col, directions[1..]);
    }
  }

  /**
   * A slider whose first square in every direction is off the board or occupied reaches at most
   * those first squares: it is hemmed in by its neighbours.
   */
  lemma {:induction false} SlidingHemmedIn(b: Board, row: int, col: int, directions: seq<Offset>)
    requires forall d :: d in directions ==> IsUnitStep(d)
    requires forall d :: d in directions ==>
      !IsOnBoard(row + d.dr, col + d.dc) || b[row + d.dr][col + d.dc] != Empty
    ensures forall s :: s in SlidingTargets(b, row, col, directions) ==> Abs(s.row - row) <= 1 && Abs(s.col - col) <= 1
  {
    if directions != [] {
      var d := directions[0];
      assert d in directions;
      SlidingHemmedIn(b, row, col, directions[1..]);
    }
  }

  /** Every square of every attack pattern is on the board. */
  lemma AttackSquaresOnBoard(b: Board, p: Piece, row: int, col: int)
    ensures forall s :: s in AttackSquares(b, p, row, col) ==> IsOnBoard(s.row, s.col)
  {
    forall s | s in AttackSquares(b, p, row, col) ensures IsOnBoard(s.row, s.col) {
      match p.kind
      case Pawn => LeaperTargetsExactly(row, col, PawnCaptureOffsets(p.color), s);
      case Knight => LeaperTargetsExactly(row, col, KnightOffsets, s);
      case King => LeaperTargetsExactly(row, col, KingOffsets, s);
      case Giraffe => LeaperTargetsExactly(row, col, GiraffeOffsets, s);
      case Rook => SlidingOnBoard(b, row, col, RookDirections);
      case Bishop => SlidingOnBoard(b, row, col, BishopDirections);
      case Queen =>
        SlidingOnBoard(b, row, col, RookDirections);
        SlidingOnBoard(b, row, col, BishopDirections);
    }
  }

  function Abs(x: int): nat {
    if x < 0 then -x else x
  }

  /** A leaper reaches (s.row, s.col) exactly when it is on the board and its displacement is one of the offsets. */
  lemma LeaperPattern(row: int, col: int, offsets: seq<Offset>, s: Square)
    ensures s in LeaperTargets(row, col, offsets) <==>
      IsOnBoard(s.row, s.col) && Offset(s.row - row, s.col - col) in offsets
  {
    LeaperTargetsExactly(row, col, offsets, s);
    if IsOnBoard(s.row, s.col) && Offset(s.row - row, s.col - col) in offsets {
      assert s == Next(Square(row, col), Offset(s.row - row, s.col - col));
    }
  }

  /** The knight's attack pattern: the on-board squares a (1, 2) or (2, 1) jump away. */
  lemma KnightPattern(b: Board, p: Piece, row: int, col: int, s: Square)
    requires p.kind == Knight
    ensures s in AttackSquares(b, p, row, col) <==>
      (IsOnBoard(s.row, s.col) &&
       ((Abs(s.row - row) == 1 && Abs(s.col - col) == 2) || (Abs(s.row - row) == 2 && Abs(s.col - col) == 1)))
  {
    LeaperPattern(row, col, KnightOffsets, s);
    var dr, dc := s.row - row, s.col - col;
    if (Abs(dr) == 1 && Abs(dc) == 2) || (Abs(dr) == 2 && Abs(dc) == 1) {
      assert Offset(dr, dc) in KnightOffsets by {
        if dr < 0 && dc < 0 { assert Offset(dr, dc) == KnightOffsets[if dr == -2 then 0 else 2]; }
        else if dr < 0 { assert Offset(dr, dc) == KnightOffsets[if dr == -2 then 1 else 3]; }
        else if dc < 0 { assert Offset(dr, dc) == KnightOffsets[if dr == 1 then 4 else 6]; }
        else { assert Offset(dr, dc) == KnightOffsets[if dr == 1 then 5 else 7]; }
      }
    }
  }

  /** The king's attack pattern: the on-board squares adjacent to it, diagonals included. */
  lemma KingPattern(b: Board, p: Piece, row: int, col: int, s: Square)
    requires p.kind == King
    ensures s in AttackSquares(b, p, row, col) <==>
      (IsOnBoard(s.row, s.col) && Abs(s.row - row) <= 1 && Abs(s.col - col) <= 1 && s != Square(row, col))
  {
    LeaperPattern(row, col, KingOffsets, s);
    var dr, dc := s.row - row, s.col - col;
    if Abs(dr) <= 1 && Abs(dc) <= 1 && s != Square(row, col) {
      assert Offset(dr, dc) in KingOffsets by {
        var k := if dr == -1 then dc + 1 else if dr == 0 then (if dc == -1 then 3 else 4) else dc + 6;
        assert Offset(dr, dc) == KingOffsets[k];
      }
    }
  }

  /** The giraffe's attack pattern: the on-board squares a (4, 1) or (1, 4) jump away. */
  lemma GiraffePattern(b: Board, p: Piece, row: int, col: int, s: Square)
    requires p.kind == Giraffe
    ensures s in AttackSquares(b, p, row, col) <==>
      (IsOnBoard(s.row, s.col) &&
       ((Abs(s.row - row) == GiraffeLeap && Abs(s.col - col) == 1) ||
        (Abs(s.row - row) == 1 && Abs(s.col - col) == GiraffeLeap)))
  {
    LeaperPattern(row, col, GiraffeOffsets, s);
    var dr, dc := s.row - row, s.col - col;
    if Abs(dr) == GiraffeLeap && Abs(dc) == 1 {
      assert Offset(dr, dc) == GiraffeOffsets[(if dr < 0 then 0 else 2) + (if dc < 0 then 0 else 1)];
    } else if Abs(dr) == 1 && Abs(dc) == GiraffeLeap {
      assert Offset(dr, dc) == GiraffeOffsets[(if dc < 0 then 4 else 6) + (if dr < 0 then 0 else 1)];
    }
  }

  /** A pawn attacks only its two forward diagonals, never the square straight ahead. */
  lemma PawnPattern(b: Board, p: Piece, row: int, col: int, s: Square)
    requires p.kind == Pawn
    ensures s in AttackSquares(b, p, row, col) <==>
      (IsOnBoard(s.row, s.col) && s.row == row + Forward(p.color) && Abs(s.col - col) == 1)
  {
    LeaperPattern(row, col, PawnCaptureOffsets(p.color), s);
    var dr, dc := s.row - row, s.col - col;
    if dr == Forward(p.color) && Abs(dc) == 1 {
      assert Offset(dr, dc) == PawnCaptureOffsets(p.color)[if dc < 0 then 0 else 1];
    }
  }

  /** Every cell around (row, col) is off the board or occupied. */
  ghost predicate HemmedIn(b: Board, row: int, col: int) {
    forall d: Offset :: IsUnitStep(d) ==> !IsOnBoard(row + d.dr, col + d.dc) || b[row + d.dr][col + d.dc] != Empty
  }

  /** A hemmed-in slider reaches only its neighbours, whichever unit directions it walks. */
  lemma HemmedInSliding(b: Board, row: int, col: int, directions: seq<Offset>)
    requires forall d :: d in directions ==> IsUnitStep(d)
    requires HemmedIn(b, row, col)
    ensures forall s :: s in SlidingTargets(b, row, col, directions) ==> Abs(s.row - row) <= 1
  {
    SlidingHemmedIn(b, row, col, directions);
  }

  /**
   * How far apart in rows an attacker and its target can be: four for the giraffe, two for every
   * other piece provided a slider is hemmed in by its neighbours.
   */
  lemma AttackReach(b: Board, p: Piece, row: int, col: int, t: Square)
    requires t in AttackSquares(b, p, row, col)
    requires p.kind in {Rook, Bishop, Queen} ==> HemmedIn(b, row, col)
    ensures Abs(t.row - row) <= (if p.kind == Giraffe then GiraffeLeap else 2)
  {
    match p.kind
    case Pawn => PawnPattern(b, p, row, col, t);
    case Knight => KnightPattern(b, p, row, col, t);
    case King => KingPattern(b, p, row, col, t);
    case Giraffe => GiraffePattern(b, p, row, col, t);
    case Rook => HemmedInSliding(b, row, col, RookDirections);
    case Bishop => HemmedInSliding(b, row, col, BishopDirections);
    case Queen =>
      HemmedInSliding(b, row, col, RookDirections);
      HemmedInSliding(b, row, col, BishopDirections);
  }

  /** One iteration of the leaper loop: offset `i` is kept exactly when its target is on the board. */
  lemma LeaperStep(row: int, col: int, offsets: seq<Offset>, i: int, done: seq<Square>)
    requires 0 <= i < |offsets|
    requires done + LeaperTargets(row, col, offsets[i..]) == LeaperTargets(row, col, offsets)
    ensures var t := Next(Square(row, col), offsets[i]);
      if IsOnBoard(t.row, t.col)
      then (done + [Square(t.row, t.col)]) + LeaperTargets(row, col, offsets[i + 1..]) == LeaperTargets(row, col, offsets)
      else done + LeaperTargets(row, col, offsets[i + 1..]) == LeaperTargets(row, col, offsets)
  {
    assert offsets[i..][1..] == offsets[i + 1..];
  }

  /** One iteration of the direction loop of `getSlidingMoves`: the ray in direction `i` is appended. */
  lemma SlidingStep(b: Board, row: int, col: int, directions: seq<Offset>, i: int, done: seq<Square>)
    requires forall d :: d in directions ==> IsUnitStep(d)
    requires 0 <= i < |directions|
    requires done + SlidingTargets(b, row, col, directions[i..]) == SlidingTargets(b, row, col, directions)
    ensures var d := directions[i];
      (done + Ray(b, Square(row + d.dr, col + d.dc), d)) + SlidingTargets(b, row, col, directions[i + 1..])
        == SlidingTargets(b, row, col, directions)
  {
    assert directions[i..][1..] == directions[i + 1..];
  }

  /** `getKnightMoves`, `getGiraffeMoves`, `getKingMoves` and the pawn case of `getAttackMoves`. */
  method LeaperMoves(row: int, col: int, offsets: seq<Offset>) returns (moves: seq<Square>)
    ensures moves == LeaperTargets(row, col, offsets)
  {
    moves := [];
    for i := 0 to |offsets|
      invariant moves + LeaperTargets(row, col, offsets[i..]) == LeaperTargets(row, col, offsets)
    {
      LeaperStep(row, col, offsets, i, moves);
      var o := offsets[i];
      var newRow, newCol := row + o.dr, col + o.dc;
      if IsOnBoard(newRow, newCol) {
        moves := moves + [Square(newRow, newCol)];
      }
    }
  }

  /** `getSlidingMoves`: one walk per direction, in the order the directions are listed. */
  method SlidingMoves(b: Board, row: int, col: int, directions: seq<Offset>) returns (moves: seq<Square>)
    requires forall d :: d in directions ==> IsUnitStep(d)
    ensures moves == SlidingTargets(b, row, col, directions)
  {
    moves := [];
    for i := 0 to |directions|
      invariant moves + SlidingTargets(b, row, col, directions[i..]) == SlidingTargets(b, row, col, directions)
    {
      SlidingStep(b, row, col, directions, i, moves);
      var ray := WalkRay(b, row, col, directions[i]);
      moves := moves + ray;
    }
  }

  /** `getAttackMoves`: dispatch on the piece type; the queen is the rook's rays followed by the bishop's. */
  method GetAttackMoves(b: Board, p: Piece, row: int, col: int) returns (moves: seq<Square>)
    ensures moves == AttackSquares(b, p, row, col)
  {
    match p.kind
    case Pawn => moves := LeaperMoves(row, col, PawnCaptureOffsets(p.color));
    case Knight => moves := LeaperMoves(row, col, KnightOffsets);
    case Rook => moves := SlidingMoves(b, row, col, RookDirections);
    case Bishop => moves := SlidingMoves(b, row, col, BishopDirections);
    case Queen =>
      var straight := SlidingMoves(b, row, col, RookDirections);
      var diagonal := SlidingMoves(b, row, col, BishopDirections);
      moves := straight + diagonal;
    case King => moves := LeaperMoves(row, col, KingOffsets);
    case Giraffe => moves := LeaperMoves(row, col, GiraffeOffsets);
  }
}
