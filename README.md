# Chess rules layer of SemesterProject, in Dafny

This project models the rules layer of a C# chess program (`ChessLogic/`).
That layer covers:

- board squares and their algebraic names;
- the board itself: an N×N grid of pieces, with N = 8, plus one en-passant square per side;
- pseudo-legal move generation for the six piece kinds;
- the five move kinds (normal, promotion, castle, double pawn push, en passant), each of which changes a board and reports whether it resets the fifty-move counter;
- legality, meaning the mover is not in check after the move;
- the game state machine, which tracks the side to move, the fifty-move counter and the result;
- the FEN-like position string;
- the per-colour piece counter.

The model keeps the shape of the C# code:

- `Board`, `Piece`, `GameState`, `StateString` and `Counting` are classes whose methods update their fields in place.
  - The board is an `array2<Piece?>` plus a map for the en-passant squares.
  - `HasMoved` is a mutable field of each piece object.
  - `Copy` allocates fresh pieces.
- Move generation, check detection and legality are functions over a value snapshot of the board, `Grid`.
  - `Board.Snapshot()` reads that snapshot off the array.
  - Each imperative operation is proved against the function that specifies it. For example, `Execute` leaves `Snapshot() == Played(old(Snapshot()), m)`, and `IsLegal` returns `Legal(old(Snapshot()), m)`.

Modules:

- `Numerals`: decimal text of integers, and its parser.
- `Geometry`: `Player`, `Direction` and `Position` (Position.cs).
- `Squares`: piece values, the grid, and the row-major enumeration of occupied squares (Board.cs).
- `Boards`: the `Board` class and the loader.
- `MoveTypes`: the `Move` tagged union.
- `Pieces`: the `Piece` class and the move generators (Pieces.cs).
- `Moves`: execution and legality (Moves.cs).
- `Game`: the game state machine (GameState.cs).
- `StateStrings`: the position string (StateString.cs).
- `Counts`: the piece counter (Counting.cs).

## Model

| member | source | states |
|---|---|---|
| Numerals.DigitChar | ChessLogic/StateString.cs:50 | a digit below 10 is written as the one character whose code is '0' plus the digit |
| Numerals.NatToString | ChessLogic/StateString.cs:50 | decimal text of a count: at least one digit, all digits, no leading zero, and one character exactly when the count is below 10 |
| Numerals.ParseNatToString | ChessLogic/StateString.cs:50 | reading the decimal text of a natural number back gives that number |
| Numerals.ParseIntToString | ChessLogic/Position.cs:58-60 | reading the text of any integer, negative ones included, gives that integer back |
| Geometry.Player.Opponent | ChessLogic/GameState.cs:37 | the opponent of a side is the other side |
| Geometry.Direction.Scale | ChessLogic/Pieces.cs:106 | `k*dir` multiplies both deltas by k; `PlusScale` and `WalkIsScaled` show that adding it is k single steps |
| Geometry.Position.Plus | ChessLogic/Position.cs:48-51 | `pos + dir` differs from pos by exactly the row delta and the column delta; `SquareColorAfterStep` and `PlusScale` build on it |
| Geometry.Position.SquareColor | ChessLogic/Position.cs:17-24 | the square is White exactly when its row and column have the same parity, and Black exactly when they differ |
| Geometry.Position.ToAlgebraic | ChessLogic/Position.cs:55-61 | the file character is 'a' plus the column, and the rest of the text reads back as the rank 8 - row |
| Geometry.Equals | ChessLogic/Position.cs:26-31 | `Equals(obj)` holds exactly when obj is a position with the same row and column |
| Geometry.EqualOp | ChessLogic/Position.cs:38-41 | `==` holds exactly when both sides are equal positions or both are null |
| Geometry.NotEqualOp | ChessLogic/Position.cs:43-46 | `!=` is the negation of `==` |
| Geometry.AlgebraicRoundTrip | ChessLogic/Position.cs:55-61 | the algebraic name determines the square: parsing it gives the same position back |
| Geometry.PlusScale | ChessLogic/Pieces.cs:106 | adding `k*dir` and then one more step is adding `(k+1)*dir`, and `pos + 2*dir` is two single steps |
| Geometry.SquareColorAfterStep | ChessLogic/Position.cs:17-24 | a step keeps the square colour exactly when the sum of its deltas is even, since the colour is the parity of row + column |
| Squares.InsideIffNamed | ChessLogic/Board.cs:83-85 | with N = 8, a square is on the board exactly when its algebraic name has a file from a to h and a rank from 1 to 8 |
| Squares.EmptyIffUnlisted | ChessLogic/Board.cs:87-89 | an on-board square is empty exactly when `PiecePositions` does not list it |
| Squares.Update | ChessLogic/Board.cs:19-24 | writing a square: that square reads back the written value and every other square is unchanged |
| Squares.Restrict | ChessLogic/Board.cs:114-120 | the grid that holds the original's pieces on the listed squares only, and is empty elsewhere |
| Squares.RestrictStep | ChessLogic/Board.cs:116-118 | copying one more listed square extends the partial copy by exactly that square |
| Squares.NotYetVisited | ChessLogic/Board.cs:91-100 | a row-major enumeration never repeats a square |
| Squares.ConsRowMajor | ChessLogic/Board.cs:92-93 | a square before every square of a row-major list can go in front of it |
| Squares.PiecePositionsFrom | ChessLogic/Board.cs:92-99 | the scan from (r, c) yields exactly the occupied squares at or after (r, c), in row-major order |
| Squares.PiecePositions | ChessLogic/Board.cs:91-100 | exactly the occupied squares, each once, in row-major order |
| Squares.WhereColor | ChessLogic/Board.cs:104 | keeps exactly the listed squares whose piece has the given colour, preserving row-major order |
| Squares.PiecePosCol | ChessLogic/Board.cs:102-105 | exactly the occupied squares whose piece has the given colour, in row-major order |
| MoveTypes.Move.Type | ChessLogic/Moves.cs:5-17 | the MoveType of a move is its kind, an iff for Normal and for DoublePawn; a castle reports the type it was built with, as the C# constructor stores it unchecked |
| MoveTypes.TruncatingHalf | ChessLogic/Moves.cs:173 | C#'s `/ 2`, rounding toward zero: the remainder x - 2h is 0 or 1 for x >= 0, and 0 or -1 for negative x |
| MoveTypes.NewDoublePawn | ChessLogic/Moves.cs:170-174 | the en-passant square is on the starting column, on row `TruncatingHalf(from.Row + to.Row)` for every pair of squares, so it is the row between from and to when the push is two rows |
| MoveTypes.NewEnPassant | ChessLogic/Moves.cs:192-196 | the captured pawn's square is on the starting row and the target column |
| Pieces.Piece.constructor | ChessLogic/Pieces.cs:156-158 | a new piece has the given type and colour and has not moved |
| Pieces.Piece.Copy | ChessLogic/Pieces.cs:68-73 | a distinct, newly allocated piece with the same type, colour and HasMoved |
| Pieces.WalkIsScaled | ChessLogic/Pieces.cs:23 | the loop's i-th `pos += direction` lands on `from + i*direction` |
| Pieces.StepsLeaveStart | ChessLogic/Pieces.cs:23 | a positive number of compass steps never returns to the starting square |
| Pieces.Ray | ChessLogic/Pieces.cs:23-38 | a ray holds the successive steps from its start, all on the board and none friendly-occupied, and every square before the last is empty |
| Pieces.RayStopsWhereLoopStops | ChessLogic/Pieces.cs:23-38 | the ray ends where the loop does: at an enemy piece it kept, or before the board edge or a friendly piece |
| Pieces.MovePositionsInDir | ChessLogic/Pieces.cs:22-38 | the i-th yielded square is `from + (i+1)*direction`, never `from` itself; every square is on the board and empty or enemy-held, and every square but the last is empty |
| Pieces.MovePositionsInDirs | ChessLogic/Pieces.cs:40-42 | a square is reached exactly when it lies on the ray of one of the directions |
| Pieces.ToNormalMoves | ChessLogic/Pieces.cs:167-170 | one NormalMove from `from` per destination, in order, and nothing else |
| Pieces.WhereEnterable | ChessLogic/Pieces.cs:200-202 | keeps exactly the candidates that are on the board and empty or enemy-occupied |
| Pieces.PromotionMoves | ChessLogic/Pieces.cs:86-91 | four moves, which are exactly the promotions from `from` to `to` to any type other than Pawn and King |
| Pieces.PawnMovesTo | ChessLogic/Pieces.cs:86-91 | a destination on the first or last row gives exactly four moves: the promotions to Knight, Bishop, Rook and Queen. Any other destination gives exactly one NormalMove |
| Pieces.ForwardMoves | ChessLogic/Pieces.cs:93-111 | pushes start at the pawn and go only onto on-board empty squares |
| Pieces.CaptureMovesTo | ChessLogic/Pieces.cs:115-126 | the moves go to the square one step forward and one step sideways, and only when it holds an enemy piece. When it does, all the moves onto it are generated |
| Pieces.DiagonalMoves | ChessLogic/Pieces.cs:113-128 | exactly the captures toward West and toward East, and these go only onto on-board squares holding an enemy piece |
| Pieces.PotentialToPositions | ChessLogic/Pieces.cs:191-198 | exactly the eight (±2, ±1) and (±1, ±2) offsets |
| Pieces.KingMovePositions | ChessLogic/Pieces.cs:303-314 | exactly the adjacent squares that are on the board and empty or enemy-occupied |
| Pieces.Adjacent | ChessLogic/Pieces.cs:281-290 | one step in each of the king's eight directions, in the order of its direction array, reaching exactly the eight neighbouring squares |
| Pieces.GetMoves | ChessLogic/Pieces.cs:21 | every generated move starts at the piece's square, is a NormalMove or a PawnPromotion, and lands on a square that is on the board and empty or enemy-occupied: never a friendly capture |
| Pieces.SlidingPositions | ChessLogic/Pieces.cs:149-170 | every square a sliding piece reaches is on the board and holds no friendly piece |
| Pieces.KnightMoves | ChessLogic/Pieces.cs:191-207 | knight moves are exactly the NormalMoves to knight-jump squares that are on the board and not friendly-occupied |
| Pieces.KingMoves | ChessLogic/Pieces.cs:303-320 | king moves are exactly the NormalMoves to adjacent squares that are on the board and not friendly-occupied |
| Pieces.PawnPushes | ChessLogic/Pieces.cs:93-111 | the single push is generated iff its square is on the board, empty and not on a last row. On a last row, each of the four promotions is generated iff that square is on the board and empty. The double push is generated iff the pawn has not moved and both squares ahead are empty |
| Pieces.PawnCaptures | ChessLogic/Pieces.cs:113-128 | an enemy piece one step forward and one step sideways gives every move onto its square. Every pawn move that leaves its column is such a capture |
| Pieces.PawnPromotions | ChessLogic/Pieces.cs:86-122 | every promotion lands on a last row and comes with all four types. A NormalMove onto a last row can only be the unpromoted double push |
| Pieces.PromotionsCompleteAppend | ChessLogic/Pieces.cs:131 | concatenating move lists keeps every promotion's four siblings |
| Pieces.CanCaptureKing | ChessLogic/Pieces.cs:44-50 | a piece that can capture a king has a generated move onto a king; for every kind but the pawn the converse holds too, so only the pawn narrows its test (`PawnCapturesKingDiagonally`) |
| Pieces.IsInCheck | ChessLogic/Board.cs:107-112 | a side in check has a king of its own on the board; `InCheckBySquares` gives the square-by-square reading |
| Pieces.CanCaptureKingTargetsEnemyKing | ChessLogic/Pieces.cs:44-50 | a piece that can capture a king finds the other side's king, never its own |
| Pieces.PawnCapturesKingDiagonally | ChessLogic/Pieces.cs:134-140 | a pawn threatens a king exactly when an enemy king stands one step forward and one step sideways; pushes never count |
| Pieces.KingCaptureAgreesWithMoves | ChessLogic/Pieces.cs:322-328 | the king's capture test over its positions agrees with asking its move list |
| Pieces.QueenMovesAreRookAndBishopMoves | ChessLogic/Pieces.cs:246-271 | the queen's moves are exactly the union of a rook's and a bishop's from the same square |
| Pieces.SlidingUnion | ChessLogic/Pieces.cs:40-42 | walking the union of two direction sets reaches what walking each reaches |
| Pieces.InCheckBySquares | ChessLogic/Board.cs:107-112 | a side is in check iff some opponent piece on the board can capture a king from its own square |
| Pieces.InCheckNeedsKing | ChessLogic/Board.cs:107-112 | a side in check has a king on the board |
| Boards.Board.Snapshot | ChessLogic/Board.cs:6 | the grid value holds, at every square, the type, colour and HasMoved of the piece object there |
| Boards.Board.constructor | ChessLogic/Board.cs:6-11 | a new board has no piece and no en-passant square for either side |
| Boards.Board.Set | ChessLogic/Board.cs:19-24 | `board[pos] = piece`: that square now holds the piece and no other square changes |
| Boards.Board.SetAt | ChessLogic/Board.cs:13-17 | `board[row, col] = piece`: that square now holds the piece and no other square changes |
| Boards.Board.Place | ChessLogic/Board.cs:19-24 | placing a new piece object changes the grid at that square only |
| Boards.Board.Clear | ChessLogic/Board.cs:19-24 | `board[pos] = null` empties that square only |
| Boards.Board.GetEnPassantSquares | ChessLogic/Board.cs:26-28 | the player's stored entry, which always exists (no missing-key path); `SetEnPassantSquares` reads back through it |
| Boards.Board.SetEnPassantSquares | ChessLogic/Board.cs:30-32 | getting the side's en-passant square afterwards gives the value set; the other side's entry and the grid are unchanged |
| Boards.Board.Copy | ChessLogic/Board.cs:114-120 | the copy has the same grid (type, colour, HasMoved on every square), built from newly allocated objects, so changing it leaves the original alone; its en-passant squares are empty |
| Boards.Board.LoadRow | ChessLogic/Board.cs:45-80 | loading row i extends the loaded prefix by that row's N squares |
| Boards.Board.LoadSquare | ChessLogic/Board.cs:48-79 | loading square (i, j) extends the loaded prefix by that square |
| Boards.Board.Initial | ChessLogic/Board.cs:34-81 | the loaded board holds at (i, j) the piece that the j-th character of line i names (the j-th UTF-16 code unit in C#, the j-th Unicode scalar here; they agree on text below U+10000), and has no en-passant squares |
| Boards.LoadedUpTo | ChessLogic/Board.cs:45-80 | the board after the first k squares in row-major order are loaded, with the rest empty |
| Boards.LoadedStep | ChessLogic/Board.cs:48-79 | loading the next square in row-major order changes exactly that square |
| Boards.LoadedGrid | ChessLogic/Board.cs:43-81 | every square holds the piece its character names, unmoved |
| Boards.PieceOf | ChessLogic/Board.cs:52-79 | a lower-case letter gives a Black piece and an upper-case letter a White one, by p/b/n/r/q/k. Other letters and non-letters give no piece |
| Moves.NormalStep | ChessLogic/Moves.cs:37-46 | the piece lands on ToPos marked as moved and FromPos is empty; all else is unchanged |
| Moves.PromotedKind | ChessLogic/Moves.cs:62-69 | the new piece is the requested Knight, Bishop or Rook, and a Queen for any other requested type |
| Moves.PromotionStep | ChessLogic/Moves.cs:71-81 | ToPos holds a new piece of the pawn's colour and of the promoted kind, marked as moved, and FromPos is empty; all else is unchanged |
| Moves.ExecuteNormal | ChessLogic/Moves.cs:37-46 | the board becomes NormalStep of the old board, and the result is true iff ToPos was occupied or the piece is a pawn |
| Moves.ExecutePromotion | ChessLogic/Moves.cs:71-81 | the board becomes PromotionStep of the old board, and the result is true |
| Moves.ExecuteDoublePawn | ChessLogic/Moves.cs:176-182 | records the mover's en-passant square, makes the normal move, and returns true |
| Moves.ExecuteEnPassant | ChessLogic/Moves.cs:198-203 | makes the normal move, then empties the captured pawn's square, and returns true |
| Moves.ExecuteCastle | ChessLogic/Moves.cs:131-136 | makes the king's normal move and then the rook's, and returns false |
| Moves.Execute | ChessLogic/Moves.cs:18 | each move kind's Execute, as the function Played; en-passant squares change only on a double push; the result is Resets |
| Moves.Transit | ChessLogic/Moves.cs:149-156 | after each king step the king, of the mover's colour, stands on the stepped-to square |
| Moves.CastleIsLegal | ChessLogic/Moves.cs:138-159 | false if the king is in check now or after either one-square step on a copy, otherwise true; the board is unchanged |
| Moves.IsLegal | ChessLogic/Moves.cs:19-24 | equals "the mover is not in check after Execute on a copy" (a castle uses its own rule); the given board is unchanged |
| Moves.NewCastle | ChessLogic/Moves.cs:94-129 | kingside: king to column N - 2 and rook to column 5; queenside: king to column 2 and rook to column 3. The rook is the first unmoved friendly rook scanning from the king to the edge, or one past the edge if there is none |
| Moves.KingsideCastleFromHome | ChessLogic/Moves.cs:94-136 | from the home squares with columns 5 and 6 empty, the scan finds the rook on column 7. King and rook end on columns 6 and 5, marked as moved, and nothing else changes |
| Moves.QueensideCastleFromHome | ChessLogic/Moves.cs:113-136 | from the home squares with columns 1 to 3 empty, the scan finds the rook on column 0. King and rook end on columns 2 and 3, marked as moved, and nothing else changes |
| Moves.CastleOntoRookSquare | ChessLogic/Moves.cs:98-136 | a king one square from column 6, with its rook there: the king's step overwrites the rook, and the rook's step carries the king back to column 5 |
| Moves.EnPassantRemovesPassedPawn | ChessLogic/Moves.cs:192-203 | an en-passant capture removes the pawn beside the mover, not the empty destination, and resets the counter |
| Game.FilterLegal | ChessLogic/GameState.cs:25 | `Where(move => move.IsLegal(Board))`: keeps exactly the legal moves |
| Game.GeneratedCheckable | ChessLogic/GameState.cs:23-25 | every generated move can be executed and checked for legality, and none is a castle |
| Game.LegalMovesForPiece | ChessLogic/GameState.cs:18-26 | empty for an empty square or an opponent's piece; otherwise exactly the piece's generated moves that are legal |
| Game.Candidates | ChessLogic/GameState.cs:42-45 | exactly the moves generated by the pieces on the listed squares |
| Game.AllLegalMovesFor | ChessLogic/GameState.cs:41-48 | exactly the legal moves generated by the side's pieces |
| Game.AllLegalMovesArePieceMoves | ChessLogic/GameState.cs:18-48 | a move is among the side's legal moves iff it is among the legal moves for one of its squares |
| Game.FiftyMovesIsHundredHalfMoves | ChessLogic/GameState.cs:73-76 | counter / 2 >= 50 iff counter >= 100 |
| Game.VerdictKeepsResult | ChessLogic/GameState.cs:50-67 | no path of CheckForGameOver sets a result back to null |
| Game.NewWinIsCheckmate | ChessLogic/GameState.cs:51-54 | a new win goes to the opponent of a side that is in check and has no legal move |
| Game.VerdictPriority | ChessLogic/GameState.cs:50-67 | no legal move always ends the game (win or stalemate) whatever the material and the counter. A new insufficient-material draw needs a legal move. A new fifty-move draw also needs sufficient material and a counter of at least 100 |
| Game.GameState.constructor | ChessLogic/GameState.cs:13-16 | the given side to move and board, no result, and a zero counter |
| Game.GameState.IsGameOver | ChessLogic/GameState.cs:69-71 | true iff there is a result |
| Game.GameState.FiftyMoveRule | ChessLogic/GameState.cs:73-76 | true iff the half-move counter is at least 100 |
| Game.GameState.CheckForGameOver | ChessLogic/GameState.cs:50-67 | the result becomes the priority verdict: checkmate or stalemate, then insufficient material, then the fifty-move rule, otherwise unchanged; board, side and counter are unchanged |
| Game.GameState.MakeMove | ChessLogic/GameState.cs:28-39 | clears the mover's en-passant square, then plays the move. The counter becomes 0 if the move resets it and grows by one otherwise. The side to move flips, the result is the verdict on the new board, and a result once set stays |
| StateStrings.LowerLetter | ChessLogic/StateString.cs:24-32 | the lower-case letter of a type, which the loader reads back as that type |
| StateStrings.PieceChar | ChessLogic/StateString.cs:23-39 | upper case for White, lower case for Black |
| StateStrings.PieceCharLoadsBack | ChessLogic/StateString.cs:23-39 | the loader reads a piece's character back as the same type and colour |
| StateStrings.Run | ChessLogic/StateString.cs:49-52 | a run of empty squares is written as its decimal count: nothing for 0, one digit below 10 |
| StateStrings.RowText | ChessLogic/StateString.cs:41-60 | a row string holds only piece letters and digits |
| StateStrings.RowTextDecodes | ChessLogic/StateString.cs:41-60 | expanding each digit into that many empties decodes the row string back to exactly its squares, so digits and letters account for every square |
| StateStrings.Split | ChessLogic/StateString.cs:62-69 | the inverse of joining: it cuts a text at each separator, into at least one part |
| StateStrings.SplitJoin | ChessLogic/StateString.cs:62-69 | splitting a join of separator-free parts gives the parts back |
| StateStrings.CountJoin | ChessLogic/StateString.cs:62-69 | joining k separator-free parts writes exactly k - 1 separators |
| StateStrings.Rows | ChessLogic/StateString.cs:62-69 | N row strings, row r being the run-length text of row r |
| StateStrings.SideField | ChessLogic/StateString.cs:71-78 | one character, which is 'w' iff White moves and 'b' iff Black moves |
| StateStrings.SideRoundTrip | ChessLogic/StateString.cs:71-78 | the side field reads back as the side to move and holds no space |
| StateStrings.CastlingRoundTrip | ChessLogic/StateString.cs:80-108 | the castling field determines the four rights, and it is non-empty with no spaces |
| StateStrings.CastlingFieldOrder | ChessLogic/StateString.cs:87-106 | the field is '-' iff no right holds. Otherwise it holds only the letters K, Q, k and q, each at most once and in that order |
| StateStrings.EnPassantReadsBack | ChessLogic/StateString.cs:110-122 | the en-passant field of a square is its algebraic name and parses back to that square |
| StateStrings.PlacementReadsBack | ChessLogic/StateString.cs:62-69 | the placement splits on '/' into the N row strings. It holds exactly N - 1 slashes, and each row decodes back to the N squares of its row |
| StateStrings.StateTextFields | ChessLogic/StateString.cs:8-16 | the text splits on single spaces into exactly placement, side, castling and en-passant |
| StateStrings.StateString.constructor | ChessLogic/StateString.cs:8-16 | the built text is the four fields joined by single spaces, with the en-passant field written only when a capture is possible |
| StateStrings.StateString.AddRowData | ChessLogic/StateString.cs:41-60 | appends exactly the run-length text of the row |
| StateStrings.StateString.AddPiecePlacement | ChessLogic/StateString.cs:62-69 | appends exactly the N row strings joined by '/' |
| StateStrings.StateString.AddCurrentPlayer | ChessLogic/StateString.cs:71-78 | appends the side field |
| StateStrings.StateString.AddCastlingRights | ChessLogic/StateString.cs:80-108 | appends the castling field |
| StateStrings.StateString.AddEnPassant | ChessLogic/StateString.cs:110-122 | appends '-' when no capture is possible, otherwise the file and rank of the opponent's en-passant square |
| Counts.AllTypesListed | ChessLogic/Counting.cs:12 | the enumeration of the piece types lists every type |
| Counts.EntryAtMostTotal | ChessLogic/Counting.cs:9 | with no negative count, each count lies between 0 and the total |
| Counts.Counting.constructor | ChessLogic/Counting.cs:10-17 | every white and black count is 0 and the total is 0 |
| Counts.Counting.Increment | ChessLogic/Counting.cs:19-31 | raises exactly the (colour, type) count by one and the total by one, and keeps the total equal to the sum of all counts |
| Counts.Counting.White | ChessLogic/Counting.cs:33-36 | the stored white count, between 0 and the total |
| Counts.Counting.Black | ChessLogic/Counting.cs:38-41 | the stored black count, between 0 and the total |

## Left out

- `Board.BoardSize` is a static, mutable property in the C# code. Here it is the constant N = 8. `Position.ToAlgebraic` hard-codes 8 anyway.
- `Board.Initial` reads a file through `File.ReadAllLines`. The model takes the lines as a parameter and requires at least N lines of at least N characters. The C# code throws on shorter input.
- `Boards.Board.Initial` indexes each line by Unicode scalar values, where C#'s `line.ToCharArray()` indexes UTF-16 code units. The two agree on text made only of characters below U+10000. A character above U+FFFF is two code units in C#: two non-letter surrogates that leave two squares empty and shift the rest of the row right by one. In the model it is one non-letter. The length requirement likewise counts scalars here, code units in C#.
- `Boards.PieceOf` covers only letters:
  - ASCII letters are classified as `char.IsLetter`/`char.IsLower`/`char.ToLower` classify them.
  - The Kelvin sign (U+212A), which .NET lower-cases to 'k', gives a White king.
  - Other non-ASCII letters give no piece. .NET case mapping of other scripts is not modelled.
- `Position.GetHashCode` is not modelled: `HashCode.Combine` is a runtime-seeded foreign call. Equal positions are equal values here, so any function of (row, column) agrees on them.
- `Direction` is not part of this model. Its eight compass constants are written out as unit steps, with North = (-1, 0), and `2*dir` is `Direction.Scale`.
- `Player.Opponent`, `Result` and `EndReason` come from files outside this model. They are declared as small datatypes.
  - The model's `Result.Win(winner)` stands for the program's `Result.Win` with reason `EndReason.Checkmate`, which the user interface reads as `result.Reason` and `result.Winner`. The model's `EndReason` leaves out the `Checkmate` member because `Win` carries it.
- Four `Board` methods come from outside this model and become inputs:
  - `CastleRightKS`/`CastleRightQS` become a `CastlingRights` value given to the `StateString` constructor.
  - `CanCaptureEnPassant` becomes a boolean parameter.
  - `InsufficientMaterial` becomes a function of the grid passed to `MakeMove`, or a boolean passed to `CheckForGameOver`.
- `StateStrings.StateString.AddCastlingRights` takes the rights as that value rather than a board.
- `StateString.ToString` is not a member: the built text is the field `sb`.
- `StateStrings.PieceChar` has no `' '` fallback, because the switch covers every piece type.
- Overflow is not modelled. `FiftyMoveCounter`, `TotalCount` and the per-type counts are unbounded integers, not 32-bit ones that wrap.
- `Geometry.Position.ToAlgebraic` writes a negative rank (row > 8) with '-'. C#'s interpolation `$"{file}{rank}"` writes the current culture's negative sign, which is '-' only in cultures that use it. `StateStrings.StateString.AddEnPassant` writes its rank the same way through `StringBuilder.Append(int)`, and the same difference applies.
- `Geometry.Position.ToAlgebraic` requires 'a' + column to be a valid UTF-16 code unit below the surrogate range. C#'s `(char)` cast wraps instead.
  - `StateStrings.StateString.AddEnPassant` and the `StateString` constructor carry the same requirement, through `Writable`. When a capture is possible, `Writable` also requires the opponent's en-passant square to be set; the C# code would dereference null there.
- `Moves.NewCastle` requires the king square to be on the board. It also requires that square to be occupied, unless the scan meets no rook. Otherwise the C# code dereferences a null piece.
  - A castle whose scan finds no rook keeps `rookFromPos` off the board, as in C#. `Execute` then requires that square to be occupied.
- `Moves.Execute` and `Moves.IsLegal` require the moving piece to be present and the squares to be on the board. Otherwise the C# code throws.
- `Moves.IsLegal` and `Moves.CastleIsLegal` state the answer against the board as it was on entry. The board is left unchanged.
- `Game.AllLegalMovesFor` and `Game.LegalMovesForPiece` are functions over the grid. C# returns lazy enumerables over the live board. The model fixes their order of enumeration but not their laziness.
- `Counts.Counting.White` and `Counts.Counting.Black` need the class invariant, so every type has an entry. The `KeyNotFoundException` path cannot be reached.
- `continue` in `AddRowData` becomes an if/else.
- `GameState` in ChessLogic has no position hashing, threefold repetition, repetition history or deep copy, so none is modelled.
  - The AI players, the GTK user interface, the timing harness and the `Opponent`/`GameStage` enums are outside the rules layer and are not modelled.
- The C# code departs from standard chess here, and the model follows the code:
  - `Pawn.ForwardMoves` generates the double push as a `NormalMove`, not a `DoublePawn`. A generated double push therefore never sets an en-passant square.
  - No `GetMoves` generates `EnPassant` or `Castle` moves. They exist only when built directly.
- `Game.LegalMovesForPiece` requires the square to be on the board. The C# code indexes `Board[pos]` and throws for an off-board position; that exception path is not modelled.
- `Boards.Board.Set`, `Boards.Board.SetAt`, `Boards.Board.Place`, `Boards.Board.Clear`, `Squares.At` and `Squares.IsEmpty` require an on-board square. The C# indexers index the 2-D array directly and throw `IndexOutOfRangeException` off the board; that exception path is not modelled.
- `Boards.Board.Valid` includes `Injective`: no piece object stands on two squares. The C# indexer does not enforce this, but every flow in ChessLogic keeps it (each write stores a fresh piece, or moves a piece and clears its old square). The model assumes it, so that setting `HasMoved` on one piece changes one square only.
