/**
 * The move kinds of Moves.cs as one tagged value. Each variant carries the
 * squares its C# constructor computes once and keeps in read-only fields.
 */
module MoveTypes {
  import opened Geometry
  import opened Squares

  datatype MoveType = Normal | CastleKS | CastleQS | DoublePawn | EnPassant | PawnPromotion

  datatype Move =
    | NormalMove(fromPos: Position, toPos: Position)
    | PawnPromotion(fromPos: Position, toPos: Position, newType: PieceType)
    | Castle(castleType: MoveType, fromPos: Position, toPos: Position,
             kingMoveDir: Direction, rookFromPos: Position, rookToPos: Position)
    | DoublePawn(fromPos: Position, toPos: Position, enPassantSquare: Position)
    | EnPassant(fromPos: Position, toPos: Position, capturePos: Position)
  {
    /** The Type property: fixed per class, chosen by the caller for a Castle. */
    function Type(): (t: MoveType)
      ensures Castle? ==> t == castleType
      ensures !Castle? ==> (t == MoveType.Normal <==> NormalMove?) && (t == MoveType.DoublePawn <==> DoublePawn?)
                           && (t == MoveType.EnPassant <==> EnPassant?) && (t == MoveType.PawnPromotion <==> PawnPromotion?)
    {
      match this
      case NormalMove(_, _) => MoveType.Normal
      case PawnPromotion(_, _, _) => MoveType.PawnPromotion
      case Castle(t, _, _, _, _, _) => t
      case DoublePawn(_, _, _) => MoveType.DoublePawn
      case EnPassant(_, _, _) => MoveType.EnPassant
    }
  }

  /**
   * C#'s `x / 2` on int, which truncates toward zero: the remainder x - 2h
   * takes the sign of x and is smaller than 2 in size.
   */
  function TruncatingHalf(x: int): (h: int)
    ensures x >= 0 ==> 0 <= x - 2 * h <= 1
    ensures x < 0 ==> -1 <= x - 2 * h <= 0
  {
    if x >= 0 then x / 2 else -((-x) / 2)
  }

  /** `new DoublePawn(from, to)`: the en-passant square is ((from.Row + to.Row) / 2, from.Column). */
  function NewDoublePawn(from: Position, to: Position): (m: Move)
    ensures m.DoublePawn? && m.fromPos == from && m.toPos == to
    ensures m.enPassantSquare.column == from.column
    ensures m.enPassantSquare.row == TruncatingHalf(from.row + to.row)
    ensures to.row == from.row + 2 || to.row == from.row - 2 ==>
              m.enPassantSquare.row == (if to.row > from.row then from.row + 1 else from.row - 1)
  {
    Move.DoublePawn(from, to, Position(TruncatingHalf(from.row + to.row), from.column))
  }

  /** `new EnPassant(from, to)`: the captured pawn stands beside the capturer, on the destination's file. */
  function NewEnPassant(from: Position, to: Position): (m: Move)
    ensures m.EnPassant? && m.fromPos == from && m.toPos == to
    ensures m.capturePos.row == from.row && m.capturePos.column == to.column
  {
    Move.EnPassant(from, to, Position(from.row, to.column))
  }
}
