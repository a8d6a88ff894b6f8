/**
 * Moves.cs: what each kind of move does to a board, whether it resets the
 * fifty-move counter, and whether it is legal. Every Execute is a method on
 * the mutable Board, proved against a function on the board's value (Played);
 * legality is stated on those values (Legal) and computed on a copy.
 */
module Moves {
  import opened Wrappers
  import opened Geometry
  import opened Squares
  import opened MoveTypes
  import opened Pieces
  import opened Boards

  // ---------------------------------------------------------------------------
  // What the moves do, as values

  /**
   * `new NormalMove(from, to).Execute`: the piece leaves `from` and stands on
   * `to` (over whatever was there) with HasMoved set. When from == to the
   * piece is written back and then the square is cleared, so it disappears.
   */
  function NormalStep(g: Grid, from: Position, to: Position): (h: Grid)
    requires IsInside(to) && Occupied(g, from)
    ensures At(h, from) == None
    ensures to != from ==> At(h, to) == Some(At(g, from).value.(hasMoved := true))
    ensures forall p | IsInside(p) && p != from && p != to :: At(h, p) == At(g, p)
  {
    Update(Update(g, to, Some(At(g, from).value.(hasMoved := true))), from, None)
  }

  /** The promoted piece's type: Knight, Bishop and Rook as asked, anything else a Queen. */
  function PromotedKind(t: PieceType): (k: PieceType)
    ensures k in PromotionTypes
    ensures t in PromotionTypes ==> k == t
    ensures t !in PromotionTypes ==> k == Queen
  {
    match t
    case Knight => Knight
    case Bishop => Bishop
    case Rook => Rook
    case _ => Queen
  }

  /**
   * `PawnPromotion.Execute`: `from` is cleared first, then a new piece of the
   * pawn's colour, already marked as moved, is written to `to`.
   */
  function PromotionStep(g: Grid, from: Position, to: Position, t: PieceType): (h: Grid)
    requires IsInside(to) && Occupied(g, from)
    ensures At(h, to) == Some(PieceInfo(PromotedKind(t), At(g, from).value.color, true))
    ensures to != from ==> At(h, from) == None
    ensures forall p | IsInside(p) && p != from && p != to :: At(h, p) == At(g, p)
  {
    Update(Update(g, from, None), to, Some(PieceInfo(PromotedKind(t), At(g, from).value.color, true)))
  }

  /** What `m.Execute(board)` needs to run without an exception. */
  ghost predicate Executable(g: Grid, m: Move) {
    IsInside(m.toPos) && Occupied(g, m.fromPos) &&
    match m
    case EnPassant(_, _, capturePos) => IsInside(capturePos)
    case Castle(_, from, to, _, rookFrom, rookTo) =>
      IsInside(rookTo) && Occupied(NormalStep(g, from, to), rookFrom)
    case _ => true
  }

  /** The squares after `m.Execute(board)`. */
  function Played(g: Grid, m: Move): (h: Grid)
    requires Executable(g, m)
  {
    match m
    case NormalMove(from, to) => NormalStep(g, from, to)
    case PawnPromotion(from, to, t) => PromotionStep(g, from, to, t)
    case Castle(_, from, to, _, rookFrom, rookTo) => NormalStep(NormalStep(g, from, to), rookFrom, rookTo)
    case DoublePawn(from, to, _) => NormalStep(g, from, to)
    case EnPassant(from, to, capturePos) => Update(NormalStep(g, from, to), capturePos, None)
  }

  /**
   * What `m.Execute(board)` returns, true when the fifty-move counter resets:
   * a normal move that captures or moves a pawn, and every promotion, double
   * push and en-passant capture; never a castle.
   */
  predicate Resets(g: Grid, m: Move)
    requires Occupied(g, m.fromPos) && IsInside(m.toPos)
  {
    match m
    case NormalMove(from, to) => At(g, to).Some? || At(g, from).value.kind == Pawn
    case Castle(_, _, _, _, _, _) => false
    case _ => true
  }

  /** The en-passant entries after `m.Execute(board)`: only a double push writes one, the mover's. */
  function EpAfter(ep: map<Player, Option<Position>>, g: Grid, m: Move): map<Player, Option<Position>>
    requires Occupied(g, m.fromPos)
  {
    if m.DoublePawn? then ep[At(g, m.fromPos).value.color := Some(m.enPassantSquare)] else ep
  }

  // ---------------------------------------------------------------------------
  // Execute, on the mutable board

  /** `NormalMove.Execute`. */
  method ExecuteNormal(from: Position, to: Position, board: Board) returns (captureOrPawn: bool)
    requires board.Valid() && IsInside(from) && IsInside(to) && board.Get(from) != null
    modifies board.Repr
    ensures board.Valid() && board.Repr == old(board.Repr)
    ensures board.enPassantSquares == old(board.enPassantSquares)
    ensures board.Snapshot() == NormalStep(old(board.Snapshot()), from, to)
    ensures captureOrPawn == Resets(old(board.Snapshot()), NormalMove(from, to))
  {
    ghost var g := board.Snapshot();
    var piece := board.Get(from);
    var capture := board.Get(to) != null;
    board.Set(to, piece);
    board.Set(from, null);
    piece.hasMoved := true;
    captureOrPawn := capture || piece.kind == Pawn;
    forall q | IsInside(q) && q != from && q != to
      ensures board.Get(q) == old(board.Get(q)) && board.Get(q) != piece
    {
      assert old(board.Get(from)) == piece;
    }
    forall p | IsInside(p) ensures board.Cell(p.row, p.column) == At(NormalStep(g, from, to), p) {
      if p != from && p != to {
        assert board.Cell(p.row, p.column) == old(board.Cell(p.row, p.column));
      }
    }
    SameCells(board.Snapshot(), NormalStep(g, from, to));
  }

  /** `PawnPromotion.Execute`: the new piece is a fresh object. */
  method ExecutePromotion(from: Position, to: Position, newType: PieceType, board: Board) returns (resets: bool)
    requires board.Valid() && IsInside(from) && IsInside(to) && board.Get(from) != null
    modifies board.Repr
    ensures board.Valid() && fresh(board.Repr - old(board.Repr))
    ensures board.enPassantSquares == old(board.enPassantSquares)
    ensures board.Snapshot() == PromotionStep(old(board.Snapshot()), from, to, newType)
    ensures resets
  {
    var pawn := board.Get(from);
    board.Clear(from);
    var newPiece := new Piece(PromotedKind(newType), pawn.color);
    newPiece.hasMoved := true;
    board.Place(to, newPiece);
    resets := true;
  }

  /** `DoublePawn.Execute`: records the mover's en-passant square, then moves normally. */
  method ExecuteDoublePawn(from: Position, to: Position, enPassantSquare: Position, board: Board) returns (resets: bool)
    requires board.Valid() && IsInside(from) && IsInside(to) && board.Get(from) != null
    modifies board.Repr
    ensures board.Valid() && board.Repr == old(board.Repr)
    ensures board.enPassantSquares == old(board.enPassantSquares)[old(board.Get(from)).color := Some(enPassantSquare)]
    ensures board.Snapshot() == NormalStep(old(board.Snapshot()), from, to)
    ensures resets
  {
    var player := board.Get(from).color;
    board.SetEnPassantSquares(player, Some(enPassantSquare));
    var _ := ExecuteNormal(from, to, board);
    resets := true;
  }

  /** `EnPassant.Execute`: moves the pawn, then empties the captured pawn's square. */
  method ExecuteEnPassant(from: Position, to: Position, capturePos: Position, board: Board) returns (resets: bool)
    requires board.Valid() && IsInside(from) && IsInside(to) && IsInside(capturePos) && board.Get(from) != null
    modifies board.Repr
    ensures board.Valid() && board.Repr == old(board.Repr)
    ensures board.enPassantSquares == old(board.enPassantSquares)
    ensures board.Snapshot() == Update(NormalStep(old(board.Snapshot()), from, to), capturePos, None)
    ensures resets
  {
    var _ := ExecuteNormal(from, to, board);
    board.Clear(capturePos);
    resets := true;
  }

  /** `Castle.Execute`: the king's normal move, then the rook's. */
  method ExecuteCastle(from: Position, to: Position, rookFrom: Position, rookTo: Position, board: Board) returns (resets: bool)
    requires board.Valid() && IsInside(from) && IsInside(to) && IsInside(rookTo) && board.Get(from) != null
    requires Occupied(NormalStep(board.Snapshot(), from, to), rookFrom)
    modifies board.Repr
    ensures board.Valid() && board.Repr == old(board.Repr)
    ensures board.enPassantSquares == old(board.enPassantSquares)
    ensures board.Snapshot() == NormalStep(NormalStep(old(board.Snapshot()), from, to), rookFrom, rookTo)
    ensures !resets
  {
    var _ := ExecuteNormal(from, to, board);
    assert board.Get(rookFrom) != null by {
      assert At(board.Snapshot(), rookFrom).Some?;
    }
    var _ := ExecuteNormal(rookFrom, rookTo, board);
    resets := false;
  }

  /** `move.Execute(board)`, dispatched on the kind of move. */
  method Execute(m: Move, board: Board) returns (resets: bool)
    requires board.Valid() && Executable(board.Snapshot(), m)
    modifies board.Repr
    ensures board.Valid() && fresh(board.Repr - old(board.Repr))
    ensures board.Snapshot() == Played(old(board.Snapshot()), m)
    ensures board.enPassantSquares == EpAfter(old(board.enPassantSquares), old(board.Snapshot()), m)
    ensures resets == Resets(old(board.Snapshot()), m)
  {
    assert board.Get(m.fromPos) != null by {
      assert At(board.Snapshot(), m.fromPos).Some?;
    }
    match m
    case NormalMove(from, to) =>
      resets := ExecuteNormal(from, to, board);
    case PawnPromotion(from, to, t) =>
      resets := ExecutePromotion(from, to, t, board);
    case Castle(_, from, to, _, rookFrom, rookTo) =>
      resets := ExecuteCastle(from, to, rookFrom, rookTo, board);
    case DoublePawn(from, to, square) =>
      resets := ExecuteDoublePawn(from, to, square, board);
    case EnPassant(from, to, capturePos) =>
      resets := ExecuteEnPassant(from, to, capturePos, board);
  }

  // ---------------------------------------------------------------------------
  // Legality

  /** The colour of the piece on `from`, the player making the move. */
  function Mover(g: Grid, m: Move): Player
    requires Occupied(g, m.fromPos)
  {
    At(g, m.fromPos).value.color
  }

  /** The two squares a castling king crosses, one step of kingMoveDir at a time. */
  function KingStep(m: Move, i: nat): Position
    requires m.Castle?
  {
    if i == 0 then m.fromPos
    else if i == 1 then m.fromPos.Plus(m.kingMoveDir)
    else m.fromPos.Plus(m.kingMoveDir).Plus(m.kingMoveDir)
  }

  /** The castle's copy after the first and the second king step. */
  function Transit(g: Grid, m: Move, i: nat): (h: Grid)
    requires m.Castle? && Occupied(g, m.fromPos) && (m.kingMoveDir == East || m.kingMoveDir == West)
    requires 1 <= i <= 2 && IsInside(KingStep(m, 1)) && (i == 2 ==> IsInside(KingStep(m, 2)))
    ensures Occupied(h, KingStep(m, i)) && At(h, KingStep(m, i)).value.color == Mover(g, m)
  {
    var first := NormalStep(g, KingStep(m, 0), KingStep(m, 1));
    if i == 1 then first else NormalStep(first, KingStep(m, 1), KingStep(m, 2))
  }

  /**
   * What `Castle.IsLegal` needs to run without an exception: a king square
   * holding a piece, and each step square on the board once the walk gets
   * there (the walk stops at the first check).
   */
  ghost predicate CastleCheckable(g: Grid, m: Move) {
    m.Castle? && Occupied(g, m.fromPos) && (m.kingMoveDir == East || m.kingMoveDir == West) &&
    (IsInCheck(g, Mover(g, m)) ||
     (IsInside(KingStep(m, 1)) &&
      (IsInCheck(Transit(g, m, 1), Mover(g, m)) || IsInside(KingStep(m, 2)))))
  }

  /** `Castle.IsLegal`: not in check now, nor after either step of the king. */
  predicate CastleLegal(g: Grid, m: Move)
    requires CastleCheckable(g, m)
  {
    !IsInCheck(g, Mover(g, m)) &&
    !IsInCheck(Transit(g, m, 1), Mover(g, m)) &&
    !IsInCheck(Transit(g, m, 2), Mover(g, m))
  }

  /** What `m.IsLegal(board)` needs: a castle asks its own check walk, any other move its Execute. */
  ghost predicate Checkable(g: Grid, m: Move) {
    if m.Castle? then CastleCheckable(g, m) else Executable(g, m)
  }

  /** `m.IsLegal(board)`: for every move but a castle, the mover is not in check once it is played. */
  predicate Legal(g: Grid, m: Move)
    requires Checkable(g, m)
  {
    if m.Castle? then CastleLegal(g, m) else !IsInCheck(Played(g, m), Mover(g, m))
  }

  /** `Castle.IsLegal(board)`, walking the king on a copy. */
  method CastleIsLegal(m: Move, board: Board) returns (legal: bool)
    requires board.Valid() && CastleCheckable(board.Snapshot(), m)
    ensures legal == CastleLegal(old(board.Snapshot()), m)
  {
    ghost var g := board.Snapshot();
    assert board.Get(m.fromPos) != null by {
      assert At(g, m.fromPos).Some?;
    }
    var player := board.Get(m.fromPos).color;
    if IsInCheck(board.Snapshot(), player) {
      assert !CastleLegal(g, m);
      return false;
    }
    assert IsInside(KingStep(m, 1));
    var copy := board.Copy();
    var kingPos := m.fromPos;
    for i := 0 to 2
      invariant fresh(copy.Repr) && copy.Valid()
      invariant kingPos == KingStep(m, i) && IsInside(kingPos)
      invariant copy.Snapshot() == if i == 0 then g else Transit(g, m, i)
      invariant i >= 1 ==> !IsInCheck(Transit(g, m, 1), player)
      invariant i >= 2 ==> !IsInCheck(Transit(g, m, 2), player)
    {
      assert copy.Get(kingPos) != null by {
        assert At(copy.Snapshot(), kingPos).Some?;
      }
      assert IsInside(KingStep(m, i + 1)) by {
        if i == 1 {
          assert !IsInCheck(Transit(g, m, 1), player);
        }
      }
      var _ := ExecuteNormal(kingPos, kingPos.Plus(m.kingMoveDir), copy);
      kingPos := kingPos.Plus(m.kingMoveDir);
      assert copy.Snapshot() == Transit(g, m, i + 1);
      if IsInCheck(copy.Snapshot(), player) {
        assert !CastleLegal(g, m);
        return false;
      }
    }
    assert CastleLegal(g, m);
    return true;
  }

  /** `move.IsLegal(board)`: the board is only read; the move is played on a copy. */
  method IsLegal(m: Move, board: Board) returns (legal: bool)
    requires board.Valid() && Checkable(board.Snapshot(), m)
    ensures legal == Legal(old(board.Snapshot()), m)
  {
    if m.Castle? {
      legal := CastleIsLegal(m, board);
      return;
    }
    assert board.Get(m.fromPos) != null by {
      assert At(board.Snapshot(), m.fromPos).Some?;
    }
    var player := board.Get(m.fromPos).color;
    var copy := board.Copy();
    var _ := Execute(m, copy);
    legal := !IsInCheck(copy.Snapshot(), player);
  }

  // ---------------------------------------------------------------------------
  // The Castle constructor

  /** An unmoved rook of the colour of the piece on kingPos: what the castle scan stops at. */
  predicate CastleRookFor(g: Grid, pos: Position, kingPos: Position)
    requires IsInside(pos) && IsInside(kingPos)
  {
    At(g, kingPos).Some? && At(g, pos) == Some(PieceInfo(Rook, At(g, kingPos).value.color, false))
  }

  /** No rook of any colour on the squares the scan visits (where the king square may be empty). */
  ghost predicate NoRookScanned(g: Grid, castleType: MoveType, kingPos: Position)
    requires IsInside(kingPos)
  {
    forall c | 0 <= c < N && (if castleType == CastleKS then kingPos.column < c else c < kingPos.column) ::
      At(g, Position(kingPos.row, c)).None? || At(g, Position(kingPos.row, c)).value.kind != Rook
  }

  /**
   * Column c is where the scan from the king toward the edge stops: the
   * first unmoved friendly rook, or one step past the edge (N or -1) when
   * there is none.
   */
  ghost predicate FirstRook(g: Grid, castleType: MoveType, kingPos: Position, c: int)
    requires IsInside(kingPos)
  {
    var row := kingPos.row;
    if castleType == CastleKS then
      kingPos.column < c <= N &&
      (c < N ==> CastleRookFor(g, Position(row, c), kingPos)) &&
      forall j | kingPos.column < j < c :: !CastleRookFor(g, Position(row, j), kingPos)
    else
      -1 <= c < kingPos.column &&
      (c >= 0 ==> CastleRookFor(g, Position(row, c), kingPos)) &&
      forall j | c < j < kingPos.column :: !CastleRookFor(g, Position(row, j), kingPos)
  }

  /**
   * `new Castle(type, kingPos, board)`: kingside (CastleKS) the king goes to
   * column N - 2 and the rook to column 5; any other type is treated as
   * queenside, king to column 2 and rook to column 3. The rook is found by
   * scanning from the king toward the edge.
   */
  method NewCastle(castleType: MoveType, kingPos: Position, board: Board) returns (m: Move)
    requires board.Valid() && IsInside(kingPos)
    requires Occupied(board.Snapshot(), kingPos) || NoRookScanned(board.Snapshot(), castleType, kingPos)
    ensures m.Castle? && m.castleType == castleType && m.fromPos == kingPos
    ensures castleType == CastleKS ==>
      m.toPos == Position(kingPos.row, N - 2) && m.kingMoveDir == East && m.rookToPos == Position(kingPos.row, 5)
    ensures castleType != CastleKS ==>
      m.toPos == Position(kingPos.row, 2) && m.kingMoveDir == West && m.rookToPos == Position(kingPos.row, 3)
    ensures m.rookFromPos.row == kingPos.row
    ensures FirstRook(board.Snapshot(), castleType, kingPos, m.rookFromPos.column)
  {
    ghost var g := board.Snapshot();
    var row := kingPos.row;
    if castleType == CastleKS {
      var i := kingPos.column + 1;
      while i < N
        invariant kingPos.column < i <= N
        invariant forall j | kingPos.column < j < i :: !CastleRookFor(g, Position(row, j), kingPos)
        decreases N - i
      {
        var p := board.GetAt(row, i);
        assert At(g, Position(row, i)) == if p == null then None else Some(p.Info());
        if p != null && p.kind == Rook && p.color == board.Get(kingPos).color && !p.hasMoved {
          break;
        }
        i := i + 1;
      }
      m := Move.Castle(castleType, kingPos, Position(row, N - 2), East, Position(row, i), Position(row, 5));
    } else {
      var i := kingPos.column - 1;
      while i >= 0
        invariant -1 <= i < kingPos.column
        invariant forall j | i < j < kingPos.column :: !CastleRookFor(g, Position(row, j), kingPos)
        decreases i
      {
        var p := board.GetAt(row, i);
        assert At(g, Position(row, i)) == if p == null then None else Some(p.Info());
        if p != null && p.kind == Rook && p.color == board.Get(kingPos).color && !p.hasMoved {
          break;
        }
        i := i - 1;
      }
      m := Move.Castle(castleType, kingPos, Position(row, 2), West, Position(row, i), Position(row, 3));
    }
  }

  // ---------------------------------------------------------------------------
  // What the moves do in the familiar positions

  /**
   * Kingside castling from the home squares (king on column 4, unmoved rook
   * on column 7, columns 5 and 6 empty): the scan finds the corner rook, and
   * the move leaves king and rook side by side on columns 6 and 5, both
   * marked as moved; nothing else on the board changes.
   */
  lemma KingsideCastleFromHome(g: Grid, row: int, color: Player)
    requires 0 <= row < N
    requires At(g, Position(row, 4)) == Some(PieceInfo(King, color, false))
    requires At(g, Position(row, 7)) == Some(PieceInfo(Rook, color, false))
    requires At(g, Position(row, 5)).None? && At(g, Position(row, 6)).None?
    ensures FirstRook(g, CastleKS, Position(row, 4), 7)
    ensures
      var m := Move.Castle(CastleKS, Position(row, 4), Position(row, N - 2), East, Position(row, 7), Position(row, 5));
      Executable(g, m) &&
      var h := Played(g, m);
      At(h, Position(row, 6)) == Some(PieceInfo(King, color, true)) &&
      At(h, Position(row, 5)) == Some(PieceInfo(Rook, color, true)) &&
      At(h, Position(row, 4)).None? && At(h, Position(row, 7)).None? &&
      forall p | IsInside(p) && p !in {Position(row, 4), Position(row, 5), Position(row, 6), Position(row, 7)} :: At(h, p) == At(g, p)
  {
    var first := NormalStep(g, Position(row, 4), Position(row, 6));
    assert At(first, Position(row, 7)) == At(g, Position(row, 7));
  }

  /**
   * Queenside castling from the home squares (king on column 4, unmoved rook
   * on column 0, columns 1 to 3 empty): king on column 2, rook on column 3.
   */
  lemma QueensideCastleFromHome(g: Grid, row: int, color: Player)
    requires 0 <= row < N
    requires At(g, Position(row, 4)) == Some(PieceInfo(King, color, false))
    requires At(g, Position(row, 0)) == Some(PieceInfo(Rook, color, false))
    requires At(g, Position(row, 1)).None? && At(g, Position(row, 2)).None? && At(g, Position(row, 3)).None?
    ensures FirstRook(g, CastleQS, Position(row, 4), 0)
    ensures
      var m := Move.Castle(CastleQS, Position(row, 4), Position(row, 2), West, Position(row, 0), Position(row, 3));
      Executable(g, m) &&
      var h := Played(g, m);
      At(h, Position(row, 2)) == Some(PieceInfo(King, color, true)) &&
      At(h, Position(row, 3)) == Some(PieceInfo(Rook, color, true)) &&
      At(h, Position(row, 4)).None? && At(h, Position(row, 0)).None? &&
      forall p | IsInside(p) && p !in {Position(row, 0), Position(row, 2), Position(row, 3), Position(row, 4)} :: At(h, p) == At(g, p)
  {
    var first := NormalStep(g, Position(row, 4), Position(row, 2));
    assert At(first, Position(row, 0)) == At(g, Position(row, 0));
  }

  /**
   * A king one square from the kingside target with an unmoved rook on that
   * target: the scan picks that rook, the king's step writes over it, and
   * the rook's step then moves the king on to the rook's square. The rook
   * is gone and the king stands on column 5.
   */
  lemma CastleOntoRookSquare(g: Grid, row: int, color: Player)
    requires 0 <= row < N
    requires At(g, Position(row, 5)) == Some(PieceInfo(King, color, false))
    requires At(g, Position(row, 6)) == Some(PieceInfo(Rook, color, false))
    ensures FirstRook(g, CastleKS, Position(row, 5), 6)
    ensures
      var m := Move.Castle(CastleKS, Position(row, 5), Position(row, N - 2), East, Position(row, 6), Position(row, 5));
      Executable(g, m) &&
      var h := Played(g, m);
      At(h, Position(row, 5)) == Some(PieceInfo(King, color, true)) && At(h, Position(row, 6)).None?
  {
  }

  /**
   * The en-passant capture: a pawn beside an enemy pawn moves diagonally
   * behind it onto an empty square; the pawn beside it is removed, not the
   * (empty) destination.
   */
  lemma EnPassantRemovesPassedPawn(g: Grid, from: Position, to: Position)
    requires IsInside(from) && IsInside(to) && to.row != from.row && Abs(to.column - from.column) == 1
    requires Occupied(g, from) && At(g, from).value.kind == Pawn
    requires At(g, to).None?
    ensures
      var m := NewEnPassant(from, to);
      Executable(g, m) && Resets(g, m) &&
      var h := Played(g, m);
      At(h, to) == Some(At(g, from).value.(hasMoved := true)) &&
      At(h, from).None? && At(h, Position(from.row, to.column)).None? &&
      forall p | IsInside(p) && p != from && p != to && p != Position(from.row, to.column) :: At(h, p) == At(g, p)
  {
  }
}
