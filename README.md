# Giraffe chess rules engine in Dafny

This project models the rules engine of `script.js`, a two-player chess variant. The board is
cross-shaped on a 10x10 array: the usual 8x8 core at rows and columns 1..8, plus two extension
squares above it, (0, 4) and (0, 5), and two below it, (9, 4) and (9, 5). Each side's giraffes
start on its extension squares. The giraffe leaps (4, 1) or (1, 4). A side also wins by
"Crowning", which means bringing its king onto the opponent's extension squares.

The model follows the program's structure, one Dafny module per part:

- `Pieces` (`pieces.dfy`): colours, piece kinds, cells (`null` or a piece), squares, and the
  10x10 `Board` value with `At` and `Put`.
- `Topology` (`topology.dfy`): `isSquareOnBoard`.
- `Rays` (`rays.dfy`): the `while` walk of `getSlidingMoves` in one direction. The
  method `WalkRay` is proved against the recursive function `Ray`.
- `Attacks` (`attacks.dfy`): `getAttackMoves` and the leaper and slider helpers. Each is a method
  with its loop, proved equal to a specification function (`LeaperTargets`, `SlidingTargets`,
  `AttackSquares`). The shape of each piece's pattern is then proved about those functions.
- `Moves` (`moves.dfy`): `getPawnMoves` and `getPseudoLegalMoves`, with the specification
  functions `PawnDestinations` and `PseudoLegal`.
- `Threats` (`threats.dfy`): `findKing` and `isSquareAttacked`. Their nested loops are proved
  against `FirstKing` and `Attacked`, two definitions written with quantifiers:
  - `FirstKing` is the king met first in row-major order over all 100 cells;
  - `Attacked` holds when some piece of the attacking colour anywhere in the array has the
    target among its attack squares.
- `Legality` (`legality.dfy`): `getLegalMovesForPiece`. Its loop plays each candidate on a copy
  of the board and is proved equal to `LegalDestinations`. `LegalDestinations` keeps the
  pseudo-legal moves, in order, after which the mover's king is found and is not attacked.
- `Setup` (`setup.dfy`): `initialBoardState`, and facts about the starting position.
- `GameState` (`gamestate.dfy`): the verdict of `checkGameState`, given as `GameVerdict`, and
  the no-legal-move scan `HasAnyLegalMove`.
- `Session` (`session.dfy`): the class `Game`. Its fields are the session globals `boardState`,
  `currentPlayer`, `selectedSquare`, `legalMoves`, `isCheck` and `gameOver`, with the selected
  square kept as an optional coordinate. It also has an `outcome` field for the message `endGame`
  shows. The handlers `handleSquareClick`, `selectPiece`, `movePiece`, `switchPlayer`,
  `clearSelection`, `checkGameState`, `endGame` and `initializeGame` are its methods. The
  constructor and `InitializeGame` establish the invariant `Valid()`. `SelectPiece`, `EndGame`,
  `CheckGameState`, `MovePiece` and `HandleSquareClick` require it and keep it:
  - a selection is a playable square holding a piece of the side to move;
  - `legalMoves` are that piece's legal destinations, or empty when nothing is selected;
  - `isCheck` says whether the side to move is in check;
  - the game has an outcome exactly when it is over, and then nothing is selected.

  Two handlers are steps inside `movePiece` and do not keep `Valid()` alone. `ClearSelection`
  leaves the session valid exactly when its check flag and outcome are, whatever was selected.
  `SwitchPlayer` keeps any selection, which would then belong to the side not moving. Its only
  caller, `movePiece`, clears the selection first.

Quirks of the code that the model reproduces:

- A pawn step tests only that the array cell is `null`. It never calls `isSquareOnBoard`, so a
  pawn may step onto an off-board `null` cell in row 0 or 9 (`Moves.PawnMayStepOffBoard`). Such a
  step is the only kind of off-board destination (`Moves.OffBoardOnlyPawnSteps`). A row outside
  the array is `undefined`, not `null`, so no step is generated there.
- Such a step cannot be played by a click, because only playable squares get a click listener
  (script.js:258-270). It still counts in the no-legal-move scan of `checkGameState`, which only
  asks whether a piece has any legal destination. So it can keep checkmate or stalemate from
  being declared (`GameState.AnyLegalDestinationCounts`).
- `findKing` and `isSquareAttacked` scan all 100 cells. The no-legal-move scan of
  `checkGameState` skips off-board cells.
- There is no promotion. The giraffe's long leg is the constant 4 (`Attacks.GiraffeLeap`).
- "Stalemate" is a win for the opponent, like checkmate.
- A side whose king is missing cannot move any piece except a king
  (`Legality.KinglessSideCannotMove`). The legality test requires the king to be found after the
  move.

Facts about the code that a reader of the rules might expect otherwise:

- Rows are numbered from Black's side: the white pawns start on row 7 and the black pawns on
  row 2. The opening double step of White's fourth-column pawn is (7, 4) to (5, 4). In the
  starting position that pawn's legal moves are exactly (6, 4) and (5, 4)
  (`Setup.InitialPawnLegalMoves`).
- The code has no pawn promotion. Its giraffe leap is fixed, not configurable. Its double step
  does not test that the destination is playable.
- Selection and clicks are handled by the same script as the rules, through its globals. So the
  session state machine is modelled too.

## Model

| member | source | states |
|---|---|---|
| Topology.IsOnBoard | script.js:211-216 | every playable square lies inside the 10x10 array |
| Topology.OnBoardCases | script.js:211-216 | a square is playable exactly when it is in rows and columns 1..8, or in row 0 or row 9 at column 4 or 5 |
| Topology.OnBoardSymmetric | script.js:211-216 | the board shape is unchanged by mirroring rows or columns |
| Topology.ExtensionSquares | script.js:213-214 | the only playable squares outside the 8x8 core are (0,4), (0,5), (9,4) and (9,5) |
| Rays.WalkRay | script.js:251 | the `while` walk in one direction returns exactly the ray from the first square beyond the origin |
| Rays.RayOnBoard | script.js:251 | every square of a ray is on the board |
| Rays.RayFollowsWalk | script.js:251 | the i-th square of a ray is i steps along its direction, so the walk goes one square at a time |
| Rays.RayPassesOnlyEmpty | script.js:251 | every square of a ray before its last one is empty, so no square past a blocker is returned |
| Rays.RayStops | script.js:251 | a ray ends either because the next square is off the board or because its last square is occupied (and included) |
| Attacks.LeaperMoves | script.js:248-250 | the leaper loop returns the on-board translates of the offsets, in offset order |
| Attacks.LeaperTargetsExactly | script.js:248-250 | a square is a leaper target exactly when it is on the board and is the origin moved by one of the offsets |
| Attacks.LeaperPattern | script.js:248-250 | a square is a leaper target exactly when it is on the board and its displacement from the origin is one of the offsets |
| Attacks.KnightPattern | script.js:248 | a knight attacks exactly the on-board squares a (1,2) or (2,1) jump away |
| Attacks.KingPattern | script.js:250 | a king attacks exactly the on-board squares adjacent to it, diagonals included |
| Attacks.GiraffePattern | script.js:249 | a giraffe attacks exactly the on-board squares a (4,1) or (1,4) jump away |
| Attacks.PawnPattern | script.js:230-236 | a pawn attacks exactly the on-board squares one row forward (row-1 for white, row+1 for black) and one column aside |
| Attacks.SlidingMoves | script.js:251-254 | the slider loop returns the rays in each direction, concatenated in direction order |
| Attacks.SlidingOnBoard | script.js:251-254 | every slider target is on the board |
| Attacks.SlidingHemmedIn | script.js:251-254 | a slider whose first square in every direction is off the board or occupied reaches only adjacent squares |
| Attacks.AttackReach | script.js:228-254 | an attack target is at most 4 rows from a giraffe, and at most 2 rows from any other piece when sliders are hemmed in |
| Attacks.GetAttackMoves | script.js:228-245 | `getAttackMoves` returns exactly the attack pattern of the piece for its kind |
| Attacks.AttackSquaresOnBoard | script.js:228-254 | every square of every attack pattern is on the board |
| Moves.GetPawnMoves | script.js:247 | `getPawnMoves` returns the enemy-holding diagonals, then the single step if its cell is `null`, then the double step from the start row if the second cell is `null` too |
| Moves.CapturesExactly | script.js:247 | the capture filter keeps exactly the targets that hold an enemy piece |
| Moves.PawnDestinationsExactly | script.js:247 | a pawn destination is exactly a forward diagonal holding an enemy, the `null` cell straight ahead, or, from row 7 (white) or row 2 (black), the cell two ahead when both cells are `null` |
| Moves.PawnNeverTakesFriend | script.js:247 | a pawn destination lies in the array, never holds a friend, and holds an enemy whenever it leaves the pawn's column |
| Moves.PawnCapturesExactly | script.js:247 | a pawn's capture is exactly an on-board forward diagonal holding an enemy |
| Moves.OffBoardOnlyPawnSteps | script.js:218-226 | a pseudo-legal destination off the board is always a pawn's single or double step straight ahead |
| Moves.PawnMayStepOffBoard | script.js:247 | a white pawn on (1,3) of an otherwise empty array may step to (0,3), which is not playable |
| Moves.GetPseudoLegalMoves | script.js:218-226 | `getPseudoLegalMoves` is the pawn rules for a pawn and the attack pattern without friendly squares otherwise |
| Moves.NonFriendlyExactly | script.js:221-224 | the friendly filter keeps exactly the targets that are empty or hold an enemy |
| Moves.NonPawnDestinations | script.js:218-226 | a non-pawn's destinations are exactly its attack squares that are empty or enemy-held; a blocking square is kept exactly when it holds an enemy |
| Moves.PseudoLegalInGrid | script.js:218-226 | every pseudo-legal destination lies inside the array, so playing it is a valid write |
| Threats.FindKing | script.js:181-189 | `findKing` returns the first king of the colour in row-major order over all 100 cells, or none when there is none |
| Threats.FirstKingExists | script.js:181-189 | wherever a king of the colour stands, a first one in scan order exists |
| Threats.FirstKingUnique | script.js:181-189 | the first king in scan order is unique |
| Threats.FirstKingIs | script.js:181-189 | the found king is exactly the first in scan order, and the result is none exactly when no king of the colour is on the array |
| Threats.IsSquareAttacked | script.js:192-207 | `isSquareAttacked` is true exactly when some piece of the attacking colour anywhere in the array has the square among its attack moves |
| Threats.AttackedOnlyOnBoard | script.js:192-207 | only playable squares are ever attacked |
| Legality.AfterMove | script.js:170-172 | on the copied board the source becomes empty, the destination takes the mover, and no other cell changes |
| Legality.GetLegalMovesForPiece | script.js:163-179 | `getLegalMovesForPiece` returns exactly the legal destinations: none for an empty cell, else the safe pseudo-legal moves in order |
| Legality.LegalDestinationsExactly | script.js:163-179 | the legal moves are a subsequence of the pseudo-legal ones, in the same order, holding exactly those after which the mover's king is found and not attacked; an empty cell has none |
| Legality.SafeMovesSubsequence | script.js:168-177 | the candidate filter keeps a subsequence of its input |
| Legality.SafeMovesExactly | script.js:168-177 | the candidate filter keeps exactly the candidates that leave the mover's king found and unattacked |
| Legality.SafeMovesNone | script.js:168-177 | a filter that keeps no candidate returns nothing |
| Legality.LegalMoveLeavesKingSafe | script.js:173-175 | after any legal move the mover's king exists and is not in check |
| Legality.NoKingAppears | script.js:170-173 | on an array without a king of a colour, moving any piece other than such a king creates none |
| Legality.KinglessSideCannotMove | script.js:173-175 | a side with no king on the array has no legal move with any other piece |
| Setup.InitialPiecesOnBoard | script.js:13-21 | every piece of the starting position stands on a playable square |
| Setup.InitialMirror | script.js:13-21 | the two sides start as mirror images across the middle of the board |
| Setup.InitialWhiteKing | script.js:13-21 | in the starting position `findKing` finds White's king on (8,5) |
| Setup.InitialBlackKing | script.js:13-21 | in the starting position `findKing` finds Black's king on (1,5) |
| Setup.InitialPawnDoubleStep | script.js:247 | in the starting position the pawn rules give the white pawn on (7,4) exactly the steps to (6,4) and (5,4) |
| Setup.CampPiece | script.js:13-21 | while Black's first three rows are as at the start and Black has no other piece, each black piece is on rows 0..2, a giraffe on row 0, no giraffe on row 1 and a pawn on row 2 |
| Setup.CampReach | script.js:228-254 | in such a position no black piece attacks beyond row 4 |
| Setup.CampLeavesWhiteSafe | script.js:192-207 | in such a position White is not in check when its king stands beyond row 4 |
| Setup.AfterOpeningPawnStep | script.js:170-172 | after either opening step of the pawn on (7,4), Black's camp is untouched and White's king is found on (8,5) |
| Setup.InitialPawnLegalMoves | script.js:163-179 | in the starting position the legal moves of the white pawn on (7,4) are exactly (6,4) and (5,4), in that order |
| Setup.InitialNotInCheck | script.js:28-34 | White does not start in check, so `isCheck = false` is right for the starting position |
| GameState.HasAnyLegalMove | script.js:133-146 | the nested scan, which skips off-board cells and stops early, finds a legal move exactly when some piece of the side to move on a playable square has one |
| GameState.NoLegalMoveExactly | script.js:133-146 | a side has no legal move exactly when every pseudo-legal move of each of its pieces on the board leaves its king missing or attacked |
| GameState.AnyLegalDestinationCounts | script.js:133-146 | any legal destination of a piece of the side to move on a playable square, whether playable or not, means the side has a legal move, and without a crowning the game goes on |
| GameState.CrowningWins | script.js:125-132 | a lone king of a colour on its crowning extension square ends the game as that colour's Crowning, before any mate logic, whoever is to move (for Black, provided White has not crowned) |
| GameState.NoCrowningVerdict | script.js:147-151 | without a crowning the game ends exactly when the side to move has no legal move, the opponent wins, and the result is checkmate exactly when in check |
| Session.Game.constructor | script.js:28-34 | the session starts in the starting position with White to move, nothing selected, no check and the game running |
| Session.Game.InitializeGame | script.js:28-34 | a new game restores that same initial state |
| Session.Game.ClearSelection | script.js:88-95 | the selection and the legal moves are cleared and nothing else changes; the session is then valid exactly when its check flag and outcome agree with the position |
| Session.Game.SelectPiece | script.js:62-70 | the square is selected and the legal moves are that piece's legal destinations; nothing else changes |
| Session.Game.SwitchPlayer | script.js:82-86 | the other side moves next and `isCheck` says whether its king is found and attacked; nothing else changes |
| Session.Game.EndGame | script.js:156-161 | the game is over with the given outcome, the selection is cleared, the board, turn and check flag are kept, and the session stays valid |
| Session.Game.CheckGameState | script.js:123-154 | nothing changes once the game is over; otherwise the outcome becomes the verdict for the side to move, and the board, turn and check flag are kept |
| Session.Game.MovePiece | script.js:72-80 | the piece goes from the source to the destination, the turn passes, `isCheck` is recomputed, and the outcome is the verdict for the new side to move |
| Session.Game.HandleSquareClick | script.js:43-60 | once the game is over a click changes nothing; a click on a legal destination plays it, after which the mover's king is safe; any second click clears the selection; otherwise only a piece of the side to move is selected |

## Left out

- Rendering and the page: `createBoardUI`, `renderPieces`, `showLegalMoveHints`, `updateStatus`,
  `pieceSymbols`, the CSS classes, the new-game button's visibility and the event-listener wiring.
  These are presentation only.
- The status text: `endGame`'s message is modelled as an `Outcome` value (`Crowning`, `Checkmate`
  or `Stalemate`, with the winner). The text shown while the game goes on is not modelled.
- JSON deep copies (`initializeGame`, `getLegalMovesForPiece`): the board is a value, so a copy is
  the value itself. The scratch board is updated with `Put` in the same order as the code's two
  writes.
- In-place mutation of the board array: the board is a `seq` of rows. `movePiece` and the legality
  filter reassign it rather than writing cells of a shared array. No other alias of the array
  exists in the code.
- The selected square is a coordinate, not a DOM element. Click coordinates are not parsed from
  `dataset` strings; they are integers.
- Session.Game.HandleSquareClick: requires the clicked square to be playable, because only
  playable squares are given a click listener (script.js:258-270).
- Session.Game.EndGame: requires `Valid()`, which its only caller, `checkGameState`, has.
- Session.Game.SelectPiece: requires a running game and a piece of the side to move on a playable
  square, which is what its only caller establishes.
- The `default: return []` branch of `getAttackMoves`: piece kinds form a closed datatype, so no
  unknown kind exists.
- The module-level methods take the board as a parameter, where the code reads the global
  `boardState` in `getLegalMovesForPiece` and in the scan of `checkGameState`. The session methods
  pass their `board` field.
