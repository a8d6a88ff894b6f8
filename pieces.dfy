/**
 * Pieces.cs: the piece objects (type, colour and a settable HasMoved flag)
 * and their read-only, pseudo-legal move generation, plus the narrower
 * "can capture the king from here" test that check detection is built on
 * (Board.IsInCheck, defined at the end).
 */
module Pieces {
  import opened Wrappers
  import opened Geometry
  import opened Squares
  import opened MoveTypes

  /** A piece object; the six C# subclasses become the `kind` tag. */
  class Piece {
    const kind: PieceType
    const color: Player
    var hasMoved: bool

    constructor (kind: PieceType, color: Player)
      ensures this.kind == kind && this.color == color && !hasMoved
    {
      this.kind := kind;
      this.color := color;
      hasMoved := false;
    }

    /** What the rules read of this piece. */
    function Info(): PieceInfo
      reads this
    {
      PieceInfo(kind, color, hasMoved)
    }

    /** A distinct object with the same Type, Color and HasMoved. */
    method Copy() returns (copy: Piece)
      ensures fresh(copy)
      ensures copy.Info() == Info()
    {
      copy := new Piece(kind, color);
      copy.hasMoved := hasMoved;
    }
  }

  // ---------------------------------------------------------------------------
  // Squares a piece may move to

  /** The square exists and holds no piece of `color`. */
  predicate Enterable(g: Grid, color: Player, pos: Position) {
    IsInside(pos) && (IsEmpty(g, pos) || At(g, pos).value.color != color)
  }

  /** The square exists and holds a piece of the other colour. */
  predicate EnemyAt(g: Grid, color: Player, pos: Position) {
    IsInside(pos) && !IsEmpty(g, pos) && At(g, pos).value.color != color
  }

  /** The eight one-square compass steps (the sliding directions). */
  predicate IsStep(d: Direction) {
    -1 <= d.rowDelta <= 1 && -1 <= d.columnDelta <= 1 && d != Direction(0, 0)
  }

  /** Squares from pos to the board edge along d; bounds the ray walk. */
  function StepsLeft(pos: Position, d: Direction): int
    requires IsStep(d)
  {
    if d.rowDelta > 0 then N - pos.row
    else if d.rowDelta < 0 then pos.row + 1
    else if d.columnDelta > 0 then N - pos.column
    else pos.column + 1
  }

  /** pos + i * d, one step at a time. */
  function Walk(pos: Position, d: Direction, i: nat): Position
    decreases i
  {
    if i == 0 then pos else Walk(pos.Plus(d), d, i - 1)
  }

  /** Walking i steps of d from pos lands on `pos + i*dir`. */
  lemma {:induction false} WalkIsScaled(pos: Position, d: Direction, i: nat)
    ensures Walk(pos, d, i) == pos.Plus(d.Scale(i))
    decreases i
  {
    if i > 0 {
      WalkIsScaled(pos.Plus(d), d, i - 1);
      assert (i - 1) * d.rowDelta + d.rowDelta == i * d.rowDelta;
      assert (i - 1) * d.columnDelta + d.columnDelta == i * d.columnDelta;
    }
  }

  /** A positive number of compass steps never returns to the start. */
  lemma StepsLeaveStart(pos: Position, d: Direction, k: nat)
    requires IsStep(d) && k > 0
    ensures pos.Plus(d.Scale(k)) != pos
  {
    if d.rowDelta == 1 || d.rowDelta == -1 {
      assert k * d.rowDelta == k || k * d.rowDelta == -(k as int);
    } else {
      assert d.columnDelta == 1 || d.columnDelta == -1;
      assert k * d.columnDelta == k || k * d.columnDelta == -(k as int);
    }
  }

  /**
   * The for loop of MovePositionsInDir, from square pos on: an empty square
   * is yielded and the walk goes on, the first occupied square ends it and is
   * yielded only when it holds an enemy, and the board edge ends it.
   */
  function Ray(g: Grid, color: Player, pos: Position, d: Direction): (ps: seq<Position>)
    requires IsStep(d)
    ensures forall i | 0 <= i < |ps| ::
      ps[i] == Walk(pos, d, i) && Enterable(g, color, ps[i]) && (i < |ps| - 1 ==> IsEmpty(g, ps[i]))
    decreases if IsInside(pos) then StepsLeft(pos, d) else 0
  {
    if !IsInside(pos) then []
    else if IsEmpty(g, pos) then [pos] + Ray(g, color, pos.Plus(d), d)
    else if At(g, pos).value.color != color then [pos]
    else []
  }

  /**
   * The walk stops for the reason the loop does: after its last square is the
   * board edge or a friendly piece, unless that last square held an enemy.
   */
  lemma {:induction false} RayStopsWhereLoopStops(g: Grid, color: Player, pos: Position, d: Direction)
    requires IsStep(d)
    ensures var ps := Ray(g, color, pos, d);
            var next := Walk(pos, d, |ps|);
            (|ps| > 0 && !IsEmpty(g, ps[|ps| - 1])) ||
            !IsInside(next) || (!IsEmpty(g, next) && At(g, next).value.color == color)
    decreases if IsInside(pos) then StepsLeft(pos, d) else 0
  {
    if IsInside(pos) && IsEmpty(g, pos) {
      RayStopsWhereLoopStops(g, color, pos.Plus(d), d);
    }
  }

  /** `MovePositionsInDir(from, board, dir)`. */
  function MovePositionsInDir(g: Grid, color: Player, from: Position, d: Direction): (ps: seq<Position>)
    requires IsStep(d)
    ensures from !in ps
    ensures forall i | 0 <= i < |ps| ::
      ps[i] == from.Plus(d.Scale(i + 1)) && Enterable(g, color, ps[i]) && (i < |ps| - 1 ==> IsEmpty(g, ps[i]))
  {
    var ps := Ray(g, color, from.Plus(d), d);
    forall i | 0 <= i < |ps| ensures ps[i] == from.Plus(d.Scale(i + 1)) && ps[i] != from {
      WalkIsScaled(from, d, i + 1);
      StepsLeaveStart(from, d, i + 1);
    }
    ps
  }

  /** `MovePositionsInDirs`: the rays of each direction, in the order given. */
  function MovePositionsInDirs(g: Grid, color: Player, from: Position, dirs: seq<Direction>): (ps: seq<Position>)
    requires forall d | d in dirs :: IsStep(d)
    ensures forall to :: to in ps <==> exists d | d in dirs :: to in MovePositionsInDir(g, color, from, d)
  {
    if dirs == [] then []
    else
      assert forall d | d in dirs[1..] :: d in dirs;
      var rest := MovePositionsInDirs(g, color, from, dirs[1..]);
      assert forall d | d in dirs :: d == dirs[0] || d in dirs[1..];
      MovePositionsInDir(g, color, from, dirs[0]) + rest
  }

  /** `Select(to => new NormalMove(from, to))`. */
  function ToNormalMoves(from: Position, ps: seq<Position>): (ms: seq<Move>)
    ensures |ms| == |ps|
    ensures forall i | 0 <= i < |ps| :: ms[i] == NormalMove(from, ps[i])
    ensures forall m :: m in ms <==> m.NormalMove? && m.fromPos == from && m.toPos in ps
  {
    if ps == [] then [] else [NormalMove(from, ps[0])] + ToNormalMoves(from, ps[1..])
  }

  /** `Where(pos => IsInside(pos) && (IsEmpty(pos) || board[pos].Color != Color))`. */
  function WhereEnterable(g: Grid, color: Player, ps: seq<Position>): (r: seq<Position>)
    ensures forall to :: to in r <==> to in ps && Enterable(g, color, to)
  {
    if ps == [] then []
    else
      var rest := WhereEnterable(g, color, ps[1..]);
      if Enterable(g, color, ps[0]) then [ps[0]] + rest else rest
  }

  // ---------------------------------------------------------------------------
  // Per-kind generation

  const BishopDirs := [NorthWest, NorthEast, SouthWest, SouthEast]
  const RookDirs := [North, East, South, West]
  const QueenDirs := [North, East, South, West, NorthWest, NorthEast, SouthWest, SouthEast]
  const KingDirs := [North, East, South, West, NorthWest, NorthEast, SouthWest, SouthEast]

  /** The pawn's `forward`: North for White, South for Black. */
  function Forward(color: Player): Direction {
    if color == White then North else South
  }

  /** `PromotionMoves(from, to)`: Knight, Bishop, Rook, Queen, in that order. */
  function PromotionMoves(from: Position, to: Position): (ms: seq<Move>)
    ensures |ms| == 4
    ensures forall m :: m in ms <==>
      m.PawnPromotion? && m.fromPos == from && m.toPos == to && m.newType != Pawn && m.newType != King
  {
    var ms := [Move.PawnPromotion(from, to, Knight), Move.PawnPromotion(from, to, Bishop),
               Move.PawnPromotion(from, to, Rook), Move.PawnPromotion(from, to, Queen)];
    forall m: Move | m.PawnPromotion? && m.fromPos == from && m.toPos == to && m.newType != Pawn && m.newType != King
      ensures m in ms
    {
      assert m == Move.PawnPromotion(from, to, m.newType);
    }
    ms
  }

  predicate IsLastRow(pos: Position) {
    pos.row == 0 || pos.row == N - 1
  }

  /** A single push or a capture onto `to`: four promotions on a last row, else one NormalMove. */
  function PawnMovesTo(from: Position, to: Position): (ms: seq<Move>)
    ensures forall m | m in ms :: m.fromPos == from && m.toPos == to && (m.NormalMove? || m.PawnPromotion?)
    ensures forall m | m in ms :: m.PawnPromotion? <==> IsLastRow(to)
    ensures PromotionsComplete(ms, from)
    ensures !IsLastRow(to) ==> ms == [NormalMove(from, to)]
    ensures IsLastRow(to) ==> |ms| == 4 && forall t | t in PromotionTypes :: Move.PawnPromotion(from, to, t) in ms
  {
    if IsLastRow(to) then PromotionMoves(from, to) else [NormalMove(from, to)]
  }

  /** `CanMoveTo`: on the board and empty. */
  predicate CanMoveTo(g: Grid, pos: Position) {
    IsInside(pos) && IsEmpty(g, pos)
  }

  /** `ForwardMoves`: the single push, then the double push, which is tried only after the single one succeeds. */
  function ForwardMoves(p: PieceInfo, from: Position, g: Grid): (ms: seq<Move>)
    ensures forall m | m in ms :: m.fromPos == from && (m.NormalMove? || m.PawnPromotion?) && CanMoveTo(g, m.toPos)
  {
    var one := from.Plus(Forward(p.color));
    if CanMoveTo(g, one) then
      var two := from.Plus(Forward(p.color).Scale(2));
      PawnMovesTo(from, one) + (if !p.hasMoved && CanMoveTo(g, two) then [NormalMove(from, two)] else [])
    else []
  }

  /** One of the two diagonal captures: `from + forward + dir`. */
  function CaptureMovesTo(p: PieceInfo, from: Position, g: Grid, dir: Direction): (ms: seq<Move>)
    ensures forall m | m in ms :: m.fromPos == from && (m.NormalMove? || m.PawnPromotion?) && EnemyAt(g, p.color, m.toPos)
    ensures forall m | m in ms :: m.toPos == from.Plus(Forward(p.color)).Plus(dir)
    ensures EnemyAt(g, p.color, from.Plus(Forward(p.color)).Plus(dir)) ==>
      forall m | m in PawnMovesTo(from, from.Plus(Forward(p.color)).Plus(dir)) :: m in ms
  {
    var to := from.Plus(Forward(p.color)).Plus(dir);
    if EnemyAt(g, p.color, to) then PawnMovesTo(from, to) else []
  }

  /** `DiagonalMoves`: West first, then East. */
  function DiagonalMoves(p: PieceInfo, from: Position, g: Grid): (ms: seq<Move>)
    ensures forall m | m in ms :: m.fromPos == from && (m.NormalMove? || m.PawnPromotion?) && EnemyAt(g, p.color, m.toPos)
    ensures forall m :: m in ms <==> m in CaptureMovesTo(p, from, g, West) || m in CaptureMovesTo(p, from, g, East)
  {
    CaptureMovesTo(p, from, g, West) + CaptureMovesTo(p, from, g, East)
  }

  function Abs(x: int): nat {
    if x < 0 then -x else x
  }

  /** Two squares along one axis and one along the other. */
  predicate KnightJump(from: Position, to: Position) {
    var dr, dc := Abs(to.row - from.row), Abs(to.column - from.column);
    (dr == 2 && dc == 1) || (dr == 1 && dc == 2)
  }

  /** Knight `PotentialToPositions`: for each vertical, then each horizontal direction, 2v + h and 2h + v. */
  function PotentialToPositions(from: Position): (ps: seq<Position>)
    ensures |ps| == 8
    ensures forall to :: to in ps <==> KnightJump(from, to)
  {
    KnightPair(from, North, West) + KnightPair(from, North, East) +
    KnightPair(from, South, West) + KnightPair(from, South, East)
  }

  function KnightPair(from: Position, v: Direction, h: Direction): seq<Position> {
    [from.Plus(v.Scale(2)).Plus(h), from.Plus(h.Scale(2)).Plus(v)]
  }

  /** King `MovePositions`: each adjacent square that is on the board and holds no friendly piece. */
  function KingMovePositions(p: PieceInfo, from: Position, g: Grid): (ps: seq<Position>)
    ensures forall to :: to in ps <==> to in Adjacent(from) && Enterable(g, p.color, to)
  {
    WhereEnterable(g, p.color, Adjacent(from))
  }

  /** The eight neighbours of `from`. */
  function Adjacent(from: Position): (ps: seq<Position>)
    ensures |ps| == 8 && forall i | 0 <= i < 8 :: ps[i] == from.Plus(KingDirs[i])
    ensures forall to :: to in ps <==> to != from && Abs(to.row - from.row) <= 1 && Abs(to.column - from.column) <= 1
  {
    [from.Plus(North), from.Plus(East), from.Plus(South), from.Plus(West),
     from.Plus(NorthWest), from.Plus(NorthEast), from.Plus(SouthWest), from.Plus(SouthEast)]
  }

  /** `GetMoves(from, board)` of the piece p standing at `from`. */
  function GetMoves(p: PieceInfo, from: Position, g: Grid): (ms: seq<Move>)
    ensures forall m | m in ms ::
      m.fromPos == from && (m.NormalMove? || m.PawnPromotion?) && Enterable(g, p.color, m.toPos)
  {
    match p.kind
    case Pawn =>
      var fwd, diag := ForwardMoves(p, from, g), DiagonalMoves(p, from, g);
      assert forall m | m in fwd + diag :: m in fwd || m in diag;
      fwd + diag
    case Bishop => ToNormalMoves(from, SlidingPositions(g, p.color, from, BishopDirs))
    case Knight => ToNormalMoves(from, WhereEnterable(g, p.color, PotentialToPositions(from)))
    case Rook => ToNormalMoves(from, SlidingPositions(g, p.color, from, RookDirs))
    case Queen => ToNormalMoves(from, SlidingPositions(g, p.color, from, QueenDirs))
    case King => ToNormalMoves(from, KingMovePositions(p, from, g))
  }

  /** The ray walks over a fixed set of compass directions; every square is enterable. */
  function SlidingPositions(g: Grid, color: Player, from: Position, dirs: seq<Direction>): (ps: seq<Position>)
    requires forall d | d in dirs :: IsStep(d)
    ensures forall to | to in ps :: Enterable(g, color, to)
  {
    var ps := MovePositionsInDirs(g, color, from, dirs);
    forall to | to in ps ensures Enterable(g, color, to) {
      var d :| d in dirs && to in MovePositionsInDir(g, color, from, d);
    }
    ps
  }

  // ---------------------------------------------------------------------------
  // Check detection

  /** `piece != null && piece.Type == PieceType.King` at an on-board square. */
  predicate KingAt(g: Grid, pos: Position) {
    IsInside(pos) && At(g, pos).Some? && At(g, pos).value.kind == King
  }

  /**
   * `CanCaptureKing(from, board)`: a pawn asks only its diagonal captures, a
   * king only its adjacent squares, every other piece its full move list.
   */
  predicate CanCaptureKing(p: PieceInfo, from: Position, g: Grid)
    ensures CanCaptureKing(p, from, g) ==> exists m | m in GetMoves(p, from, g) :: KingAt(g, m.toPos)
    ensures p.kind != Pawn ==>
      (CanCaptureKing(p, from, g) <==> exists m | m in GetMoves(p, from, g) :: KingAt(g, m.toPos))
  {
    match p.kind
    case Pawn =>
      assert GetMoves(p, from, g) == ForwardMoves(p, from, g) + DiagonalMoves(p, from, g);
      exists m | m in DiagonalMoves(p, from, g) :: KingAt(g, m.toPos)
    case King =>
      KingTargetsAsMoves(g, from, KingMovePositions(p, from, g));
      exists to | to in KingMovePositions(p, from, g) :: KingAt(g, to)
    case _ => exists m | m in GetMoves(p, from, g) :: KingAt(g, m.toPos)
  }

  /** `Board.IsInCheck(player)`: some piece of the opponent can capture a king from its own square. */
  predicate IsInCheck(g: Grid, player: Player)
    ensures IsInCheck(g, player) ==> exists pos :: KingAt(g, pos) && At(g, pos).value.color == player
  {
    exists pos | pos in PiecePosCol(g, player.Opponent()) :: CanCaptureKing(At(g, pos).value, pos, g)
  }

  // ---------------------------------------------------------------------------
  // Properties of the generators

  const PromotionTypes := [Knight, Bishop, Rook, Queen]

  /** Knight destinations: exactly the jumps that land on the board and on no friendly piece. */
  lemma KnightMoves(p: PieceInfo, from: Position, g: Grid)
    requires p.kind == Knight
    ensures forall m :: m in GetMoves(p, from, g) <==>
      m.NormalMove? && m.fromPos == from && KnightJump(from, m.toPos) && Enterable(g, p.color, m.toPos)
  {
  }

  /** King destinations: exactly the neighbours that are on the board and hold no friendly piece. */
  lemma KingMoves(p: PieceInfo, from: Position, g: Grid)
    requires p.kind == King
    ensures forall m :: m in GetMoves(p, from, g) <==>
      m.NormalMove? && m.fromPos == from && m.toPos in Adjacent(from) && Enterable(g, p.color, m.toPos)
  {
  }

  /**
   * The single push needs an empty square; the double push needs an unmoved
   * pawn and both squares ahead empty.
   */
  lemma PawnPushes(p: PieceInfo, from: Position, g: Grid)
    requires p.kind == Pawn
    ensures var one, two := from.Plus(Forward(p.color)), from.Plus(Forward(p.color).Scale(2));
      && (NormalMove(from, one) in GetMoves(p, from, g) <==> CanMoveTo(g, one) && !IsLastRow(one))
      && (NormalMove(from, two) in GetMoves(p, from, g) <==> !p.hasMoved && CanMoveTo(g, one) && CanMoveTo(g, two))
      && (forall t | t in PromotionTypes ::
            Move.PawnPromotion(from, one, t) in GetMoves(p, from, g) <==> CanMoveTo(g, one) && IsLastRow(one))
  {
    var one, two := from.Plus(Forward(p.color)), from.Plus(Forward(p.color).Scale(2));
    var fwd, diag := ForwardMoves(p, from, g), DiagonalMoves(p, from, g);
    assert GetMoves(p, from, g) == fwd + diag;
    assert NormalMove(from, one) !in diag && NormalMove(from, two) !in diag;
    assert forall t :: Move.PawnPromotion(from, one, t) !in diag;
  }

  /**
   * The diagonal captures: an enemy piece one step forward and one step
   * sideways gives the moves onto its square (four promotions on a last
   * row), and every pawn move that leaves the column is such a capture.
   */
  lemma PawnCaptures(p: PieceInfo, from: Position, g: Grid)
    requires p.kind == Pawn
    ensures forall dir | dir in [West, East] ::
      var to := from.Plus(Forward(p.color)).Plus(dir);
      EnemyAt(g, p.color, to) ==> forall m | m in PawnMovesTo(from, to) :: m in GetMoves(p, from, g)
    ensures forall m | m in GetMoves(p, from, g) && m.toPos.column != from.column ::
      exists dir | dir in [West, East] :: m.toPos == from.Plus(Forward(p.color)).Plus(dir) && EnemyAt(g, p.color, m.toPos)
  {
    var fwd, diag := ForwardMoves(p, from, g), DiagonalMoves(p, from, g);
    assert GetMoves(p, from, g) == fwd + diag;
    forall m | m in GetMoves(p, from, g) && m.toPos.column != from.column
      ensures exists dir | dir in [West, East] :: m.toPos == from.Plus(Forward(p.color)).Plus(dir) && EnemyAt(g, p.color, m.toPos)
    {
      assert m !in fwd;
      var dir := if m in CaptureMovesTo(p, from, g, West) then West else East;
      assert dir in [West, East];
    }
  }

  /**
   * Every promotion lands on a last row and comes with its three siblings
   * (Knight, Bishop, Rook, Queen); a NormalMove reaches a last row only as
   * the double push, which is never promoted.
   */
  lemma PawnPromotions(p: PieceInfo, from: Position, g: Grid)
    requires p.kind == Pawn
    ensures PromotionsComplete(GetMoves(p, from, g), from)
    ensures forall m | m in GetMoves(p, from, g) && m.NormalMove? && IsLastRow(m.toPos) ::
      m.toPos == from.Plus(Forward(p.color).Scale(2)) && !p.hasMoved
  {
    var one, two := from.Plus(Forward(p.color)), from.Plus(Forward(p.color).Scale(2));
    var fwd, diag := ForwardMoves(p, from, g), DiagonalMoves(p, from, g);
    var west, east := CaptureMovesTo(p, from, g, West), CaptureMovesTo(p, from, g, East);
    var pushes := if CanMoveTo(g, one) then PawnMovesTo(from, one) else [];
    var double := if CanMoveTo(g, one) && !p.hasMoved && CanMoveTo(g, two) then [NormalMove(from, two)] else [];
    assert fwd == pushes + double;
    assert PromotionsComplete(double, from);
    PromotionsCompleteAppend(pushes, double, from);
    PromotionsCompleteAppend(west, east, from);
    PromotionsCompleteAppend(fwd, diag, from);
    forall m | m in GetMoves(p, from, g) && m.NormalMove? && IsLastRow(m.toPos)
      ensures m.toPos == two && !p.hasMoved
    {
      assert m in pushes || m in double || m in west || m in east;
    }
  }

  /**
   * In ms, every promotion from `from` lands on a last row with a type the
   * generator offers, and comes with all four of its siblings.
   */
  ghost predicate PromotionsComplete(ms: seq<Move>, from: Position) {
    forall m | m in ms && m.PawnPromotion? ::
      IsLastRow(m.toPos) && m.newType in PromotionTypes &&
      forall t | t in PromotionTypes :: Move.PawnPromotion(from, m.toPos, t) in ms
  }

  lemma PromotionsCompleteAppend(a: seq<Move>, b: seq<Move>, from: Position)
    requires PromotionsComplete(a, from) && PromotionsComplete(b, from)
    ensures PromotionsComplete(a + b, from)
  {
    forall m | m in a + b && m.PawnPromotion?
      ensures forall t | t in PromotionTypes :: Move.PawnPromotion(from, m.toPos, t) in a + b
    {
      var part := if m in a then a else b;
      assert forall x | x in part :: x in a + b;
    }
  }

  /** A capture test finds only the other side's king: pieces never target their own. */
  lemma CanCaptureKingTargetsEnemyKing(p: PieceInfo, from: Position, g: Grid)
    requires CanCaptureKing(p, from, g)
    ensures exists pos :: KingAt(g, pos) && At(g, pos).value.color != p.color
  {
  }

  /** A pawn threatens only the two squares diagonally ahead; its pushes never capture. */
  lemma PawnCapturesKingDiagonally(p: PieceInfo, from: Position, g: Grid)
    requires p.kind == Pawn
    ensures CanCaptureKing(p, from, g) <==>
      exists dir | dir in [West, East] ::
        var to := from.Plus(Forward(p.color)).Plus(dir);
        KingAt(g, to) && At(g, to).value.color != p.color
  {
    var west, east := CaptureMovesTo(p, from, g, West), CaptureMovesTo(p, from, g, East);
    assert DiagonalMoves(p, from, g) == west + east;
    forall dir | dir in [West, East]
      ensures var to := from.Plus(Forward(p.color)).Plus(dir);
        KingAt(g, to) && At(g, to).value.color != p.color ==> PawnMovesTo(from, to)[0] in DiagonalMoves(p, from, g)
    {
    }
  }

  /** The king's own capture test agrees with asking its full move list. */
  lemma KingCaptureAgreesWithMoves(p: PieceInfo, from: Position, g: Grid)
    requires p.kind == King
    ensures CanCaptureKing(p, from, g) <==> exists m | m in GetMoves(p, from, g) :: KingAt(g, m.toPos)
  {
    var ps := KingMovePositions(p, from, g);
    assert GetMoves(p, from, g) == ToNormalMoves(from, ps);
    KingTargetsAsMoves(g, from, ps);
  }

  lemma KingTargetsAsMoves(g: Grid, from: Position, ps: seq<Position>)
    ensures (exists to | to in ps :: KingAt(g, to)) <==> exists m | m in ToNormalMoves(from, ps) :: KingAt(g, m.toPos)
  {
    if to :| to in ps && KingAt(g, to) {
      assert NormalMove(from, to) in ToNormalMoves(from, ps);
    }
  }


  /** The queen moves as a rook and a bishop together. */
  lemma QueenMovesAreRookAndBishopMoves(color: Player, moved: bool, from: Position, g: Grid)
    ensures forall m :: m in GetMoves(PieceInfo(Queen, color, moved), from, g) <==>
      m in GetMoves(PieceInfo(Rook, color, moved), from, g) || m in GetMoves(PieceInfo(Bishop, color, moved), from, g)
  {
    var q, r, b := SlidingPositions(g, color, from, QueenDirs), SlidingPositions(g, color, from, RookDirs),
      SlidingPositions(g, color, from, BishopDirs);
    assert GetMoves(PieceInfo(Queen, color, moved), from, g) == ToNormalMoves(from, q);
    assert GetMoves(PieceInfo(Rook, color, moved), from, g) == ToNormalMoves(from, r);
    assert GetMoves(PieceInfo(Bishop, color, moved), from, g) == ToNormalMoves(from, b);
    forall d ensures d in QueenDirs <==> d in RookDirs || d in BishopDirs {
    }
    SlidingUnion(g, color, from, RookDirs, BishopDirs, QueenDirs);
  }

  /** Walking the rays of c, where c lists the directions of a and of b, reaches what a and b reach. */
  lemma SlidingUnion(g: Grid, color: Player, from: Position, a: seq<Direction>, b: seq<Direction>, c: seq<Direction>)
    requires forall d | d in c :: IsStep(d)
    requires forall d :: d in c <==> d in a || d in b
    ensures forall to :: to in SlidingPositions(g, color, from, c) <==>
      to in SlidingPositions(g, color, from, a) || to in SlidingPositions(g, color, from, b)
  {
  }

  /** IsInCheck, square by square: some opponent piece on the board can capture a king from where it stands. */
  lemma InCheckBySquares(g: Grid, player: Player)
    ensures IsInCheck(g, player) <==>
      exists pos | Occupied(g, pos) && At(g, pos).value.color == player.Opponent() :: CanCaptureKing(At(g, pos).value, pos, g)
  {
  }

  /** Only a side whose king is on the board can be in check. */
  lemma InCheckNeedsKing(g: Grid, player: Player)
    requires IsInCheck(g, player)
    ensures exists pos :: KingAt(g, pos) && At(g, pos).value.color == player
  {
    var pos :| pos in PiecePosCol(g, player.Opponent()) && CanCaptureKing(At(g, pos).value, pos, g);
    CanCaptureKingTargetsEnemyKing(At(g, pos).value, pos, g);
  }
}
