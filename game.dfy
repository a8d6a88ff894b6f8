/**
 * GameState.cs: the side to move, the fifty-move half-move counter and the
 * result of the game, over a board the state owns. The move queries are
 * functions of the board's squares; MakeMove and CheckForGameOver change the
 * state in place.
 */
module Game {
  import opened Wrappers
  import opened Geometry
  import opened Squares
  import opened MoveTypes
  import opened Pieces
  import opened Boards
  import opened Moves

  /**
   * Why a drawn game ended (the reasons GameState uses). The program's
   * `Checkmate` reason is not listed: `Win` below carries it.
   */
  datatype EndReason = Stalemate | InsufficientMaterial | FiftyMoveRule

  /** How a game ended: a win for one side (reason Checkmate), or a draw for a reason. */
  datatype Result = Win(winner: Player) | Draw(reason: EndReason)

  // ---------------------------------------------------------------------------
  // Legal moves

  /** `Where(move => move.IsLegal(board))`, keeping the order of the candidates. */
  function FilterLegal(g: Grid, ms: seq<Move>): (r: seq<Move>)
    requires forall m | m in ms :: Checkable(g, m)
    ensures forall m :: m in r <==> m in ms && Legal(g, m)
    ensures |r| <= |ms|
  {
    if ms == [] then []
    else
      var rest := FilterLegal(g, ms[1..]);
      assert forall m | m in ms[1..] :: m in ms;
      if Legal(g, ms[0]) then [ms[0]] + rest else rest
  }

  /** Every move a piece generates can be asked IsLegal: it starts on the piece and ends on the board. */
  lemma GeneratedCheckable(g: Grid, pos: Position)
    requires Occupied(g, pos)
    ensures forall m | m in GetMoves(At(g, pos).value, pos, g) :: Checkable(g, m) && !m.Castle?
  {
  }

  /**
   * `LegalMovesForPiece(pos)`: nothing for an empty square or a piece of the
   * side not to move, otherwise the piece's generated moves that are legal.
   */
  function LegalMovesForPiece(g: Grid, current: Player, pos: Position): (ms: seq<Move>)
    requires IsInside(pos)
    ensures IsEmpty(g, pos) || At(g, pos).value.color != current ==> ms == []
    ensures !IsEmpty(g, pos) && At(g, pos).value.color == current ==>
      forall m :: m in ms <==> m in GetMoves(At(g, pos).value, pos, g) && Legal(g, m)
  {
    if IsEmpty(g, pos) || At(g, pos).value.color != current then []
    else
      GeneratedCheckable(g, pos);
      FilterLegal(g, GetMoves(At(g, pos).value, pos, g))
  }

  /** `SelectMany(pos => board[pos].GetMoves(pos, board))` over the given squares, in order. */
  function Candidates(g: Grid, ps: seq<Position>): (ms: seq<Move>)
    requires forall p | p in ps :: Occupied(g, p)
    ensures forall m | m in ms :: Checkable(g, m)
    ensures forall m :: m in ms <==> exists p | p in ps && Occupied(g, p) :: m in GetMoves(At(g, p).value, p, g)
  {
    if ps == [] then []
    else
      assert Occupied(g, ps[0]) by { assert ps[0] in ps; }
      var first := GetMoves(At(g, ps[0]).value, ps[0], g);
      var rest := Candidates(g, ps[1..]);
      GeneratedCheckable(g, ps[0]);
      assert forall p | p in ps[1..] :: p in ps;
      assert forall p | p in ps :: p == ps[0] || p in ps[1..];
      first + rest
  }

  /** `AllLegalMovesFor(player)`: the legal moves among those of every piece of that colour. */
  function AllLegalMovesFor(g: Grid, player: Player): (ms: seq<Move>)
    ensures forall m :: m in ms <==>
      (exists p | p in PiecePosCol(g, player) && Occupied(g, p) :: m in GetMoves(At(g, p).value, p, g)) && Legal(g, m)
  {
    FilterLegal(g, Candidates(g, PiecePosCol(g, player)))
  }

  /** The moves of the whole side are exactly the moves of its pieces, square by square. */
  lemma AllLegalMovesArePieceMoves(g: Grid, player: Player, m: Move)
    ensures m in AllLegalMovesFor(g, player) <==> exists pos | IsInside(pos) :: m in LegalMovesForPiece(g, player, pos)
  {
    if m in AllLegalMovesFor(g, player) {
      var p :| p in PiecePosCol(g, player) && Occupied(g, p) && m in GetMoves(At(g, p).value, p, g);
      assert m in LegalMovesForPiece(g, player, p);
    }
    if pos :| IsInside(pos) && m in LegalMovesForPiece(g, player, pos) {
      assert pos in PiecePosCol(g, player);
    }
  }

  // ---------------------------------------------------------------------------
  // The end of the game

  /** `FiftyMoveRule()`: fifty full moves, the counter halved with C#'s truncating division. */
  predicate FiftyMovesPlayed(counter: int) {
    TruncatingHalf(counter) >= 50
  }

  lemma FiftyMovesIsHundredHalfMoves(counter: int)
    ensures FiftyMovesPlayed(counter) <==> counter >= 100
  {
  }

  /**
   * The result after `CheckForGameOver`, in its order of priority: no legal
   * move ends the game (a win for the other side when in check, else a
   * stalemate); then insufficient material; then the fifty-move rule.
   * Otherwise the previous result stays.
   */
  function Verdict(previous: Option<Result>, toMove: Player, noLegalMove: bool, inCheck: bool,
                   insufficient: bool, counter: int): Option<Result>
  {
    if noLegalMove then
      if inCheck then Some(Win(toMove.Opponent())) else Some(Draw(Stalemate))
    else if insufficient then Some(Draw(InsufficientMaterial))
    else if FiftyMovesPlayed(counter) then Some(Draw(FiftyMoveRule))
    else previous
  }

  /** The verdict on a board: the side to move has no legal move, and whether it is in check. */
  function BoardVerdict(previous: Option<Result>, g: Grid, toMove: Player, insufficient: bool, counter: int): Option<Result> {
    Verdict(previous, toMove, |AllLegalMovesFor(g, toMove)| == 0, IsInCheck(g, toMove), insufficient, counter)
  }

  /** Once there is a result, there always is one. */
  lemma VerdictKeepsResult(previous: Option<Result>, g: Grid, toMove: Player, insufficient: bool, counter: int)
    ensures previous.Some? ==> BoardVerdict(previous, g, toMove, insufficient, counter).Some?
  {
  }

  /**
   * A new win is a checkmate of the side to move, by the other side: it has
   * no legal move and is in check.
   */
  lemma NewWinIsCheckmate(previous: Option<Result>, g: Grid, toMove: Player, insufficient: bool, counter: int, winner: Player)
    requires BoardVerdict(previous, g, toMove, insufficient, counter) == Some(Win(winner)) != previous
    ensures winner == toMove.Opponent() && IsInCheck(g, toMove)
    ensures forall m :: m !in AllLegalMovesFor(g, toMove)
  {
  }

  /**
   * The priority: a side without legal moves is mated or stalemated whatever
   * the material and the counter; insufficient material comes before the
   * fifty-move rule; the fifty-move draw needs a hundred half-moves.
   */
  lemma VerdictPriority(previous: Option<Result>, g: Grid, toMove: Player, insufficient: bool, counter: int)
    ensures var r := BoardVerdict(previous, g, toMove, insufficient, counter);
      (|AllLegalMovesFor(g, toMove)| == 0 ==> r.Some? && (r.value.Win? || r.value == Draw(Stalemate))) &&
      (r == Some(Draw(InsufficientMaterial)) && r != previous ==> insufficient && |AllLegalMovesFor(g, toMove)| > 0) &&
      (r == Some(Draw(FiftyMoveRule)) && r != previous ==> counter >= 100 && !insufficient && |AllLegalMovesFor(g, toMove)| > 0)
  {
    FiftyMovesIsHundredHalfMoves(counter);
  }

  // ---------------------------------------------------------------------------
  // The state machine

  class GameState {
    const board: Board
    var currentPlayer: Player
    var result: Option<Result>
    var fiftyMoveCounter: int

    ghost predicate Valid()
      reads this, board, board.pieces
    {
      board.Valid() && this !in board.Repr && fiftyMoveCounter >= 0
    }

    /** `new GameState(player, board)`: no result yet, the counter at 0. */
    constructor (player: Player, board: Board)
      requires board.Valid()
      ensures Valid() && this.board == board && currentPlayer == player
      ensures result == None && fiftyMoveCounter == 0
    {
      this.board := board;
      currentPlayer := player;
      result := None;
      fiftyMoveCounter := 0;
    }

    /** `IsGameOver()`. */
    function IsGameOver(): (over: bool)
      reads this
      ensures over <==> result != None
    {
      result.Some?
    }

    /** `FiftyMoveRule()`. */
    function FiftyMoveRule(): (reached: bool)
      reads this
      ensures reached <==> fiftyMoveCounter >= 100
    {
      FiftyMovesIsHundredHalfMoves(fiftyMoveCounter);
      FiftyMovesPlayed(fiftyMoveCounter)
    }

    /**
     * `CheckForGameOver()`, with what `Board.InsufficientMaterial()` answers
     * passed in.
     */
    method CheckForGameOver(insufficient: bool)
      requires Valid()
      modifies this
      ensures Valid() && currentPlayer == old(currentPlayer) && fiftyMoveCounter == old(fiftyMoveCounter)
      ensures board.Snapshot() == old(board.Snapshot())
      ensures result == BoardVerdict(old(result), old(board.Snapshot()), currentPlayer, insufficient, fiftyMoveCounter)
    {
      var g := board.Snapshot();
      var noLegalMove := |AllLegalMovesFor(g, currentPlayer)| == 0;
      var inCheck := IsInCheck(g, currentPlayer);
      if noLegalMove {
        if inCheck {
          result := Some(Win(currentPlayer.Opponent()));
        } else {
          result := Some(Draw(Stalemate));
        }
      } else if insufficient {
        result := Some(Draw(InsufficientMaterial));
      } else if FiftyMoveRule() {
        result := Some(Draw(EndReason.FiftyMoveRule));
      }
      board.SnapshotFrame();
    }

    /**
     * `MakeMove(move)`: clears the mover's en-passant square, plays the move,
     * resets or advances the fifty-move counter, hands the move to the other
     * side and looks for the end of the game. `insufficientMaterial` stands
     * for `Board.InsufficientMaterial()`, asked of the board after the move.
     */
    method MakeMove(m: Move, insufficientMaterial: Grid -> bool)
      requires Valid() && Executable(board.Snapshot(), m)
      modifies this, board.Repr
      ensures Valid() && fresh(board.Repr - old(board.Repr))
      ensures board.Snapshot() == Played(old(board.Snapshot()), m)
      ensures board.enPassantSquares ==
        EpAfter(old(board.enPassantSquares)[old(currentPlayer) := None], old(board.Snapshot()), m)
      ensures currentPlayer == old(currentPlayer).Opponent()
      ensures fiftyMoveCounter == if Resets(old(board.Snapshot()), m) then 0 else old(fiftyMoveCounter) + 1
      ensures result == BoardVerdict(old(result), board.Snapshot(), currentPlayer,
                                     insufficientMaterial(board.Snapshot()), fiftyMoveCounter)
      ensures old(result).Some? ==> result.Some?
    {
      ghost var before := board.Snapshot();
      board.SetEnPassantSquares(currentPlayer, None);
      var captureOrPawn := Execute(m, board);
      ghost var after := board.Snapshot();
      assert after == Played(before, m);
      label Moved:
      if captureOrPawn {
        fiftyMoveCounter := 0;
      } else {
        fiftyMoveCounter := fiftyMoveCounter + 1;
      }
      currentPlayer := currentPlayer.Opponent();
      board.SnapshotFrame@Moved();
      CheckForGameOver(insufficientMaterial(board.Snapshot()));
      VerdictKeepsResult(old(result), after, currentPlayer, insufficientMaterial(after), fiftyMoveCounter);
    }
  }
}
