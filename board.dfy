/**
 * Board.cs: the mutable board. An N x N array of piece references (null for
 * an empty square) and one en-passant entry per player. The rules read it
 * through Snapshot(), the value of its squares; the indexer setters, Copy and
 * the loader change it in place.
 */
module Boards {
  import opened Wrappers
  import opened Geometry
  import opened Squares
  import opened Pieces

  class Board {
    const pieces: array2<Piece?>
    var enPassantSquares: map<Player, Option<Position>>
    /** The board, its array and every piece object it has been given. */
    ghost var Repr: set<object>

    /** The array has the board's dimensions. */
    predicate Shaped() {
      pieces.Length0 == N && pieces.Length1 == N
    }

    /** Everything Snapshot reads is in Repr. */
    ghost predicate Framed()
      reads this, pieces
    {
      this in Repr && pieces in Repr && Shaped() &&
      forall r, c | 0 <= r < N && 0 <= c < N && pieces[r, c] != null :: pieces[r, c] in Repr
    }

    /** No piece object stands on two squares, so setting HasMoved changes one square. */
    ghost predicate Injective()
      reads pieces
      requires Shaped()
    {
      forall p, q | IsInside(p) && IsInside(q) && Get(p) != null && Get(p) == Get(q) :: p == q
    }

    ghost predicate Valid()
      reads this, pieces
    {
      Framed() && White in enPassantSquares && Black in enPassantSquares && Injective()
    }

    /** What square (r, c) holds, as a value. */
    function Cell(r: int, c: int): Option<PieceInfo>
      requires 0 <= r < pieces.Length0 && 0 <= c < pieces.Length1
      reads pieces, pieces[r, c]
    {
      if pieces[r, c] == null then None else Some(pieces[r, c].Info())
    }

    function RowFrom(r: int, c: nat): (row: seq<Option<PieceInfo>>)
      requires Framed() && 0 <= r < N && c <= N
      reads this, Repr
      ensures |row| == N - c
      ensures forall j | 0 <= j < |row| :: row[j] == Cell(r, c + j)
      decreases N - c
    {
      if c == N then [] else [Cell(r, c)] + RowFrom(r, c + 1)
    }

    function RowsFrom(r: nat): (rows: seq<seq<Option<PieceInfo>>>)
      requires Framed() && r <= N
      reads this, Repr
      ensures |rows| == N - r
      ensures forall i | 0 <= i < |rows| :: rows[i] == RowFrom(r + i, 0)
      decreases N - r
    {
      if r == N then [] else [RowFrom(r, 0)] + RowsFrom(r + 1)
    }

    /** The squares of the board as a value: square p holds what `board[p]` refers to. */
    function Snapshot(): (g: Grid)
      requires Framed()
      reads this, Repr
      ensures forall p | IsInside(p) :: At(g, p) == Cell(p.row, p.column)
    {
      var rows := RowsFrom(0);
      assert forall i | 0 <= i < N :: |rows[i]| == N;
      rows
    }

    /** The getter of `board[pos]`. */
    function Get(pos: Position): Piece?
      requires Shaped() && IsInside(pos)
      reads pieces
    {
      pieces[pos.row, pos.column]
    }

    /** The getter of `board[row, col]`. */
    function GetAt(row: int, col: int): Piece?
      requires Shaped() && 0 <= row < N && 0 <= col < N
      reads pieces
    {
      pieces[row, col]
    }

    /** An empty board: every square null, both en-passant entries null. */
    constructor ()
      ensures Valid() && fresh(Repr)
      ensures forall p | IsInside(p) :: Get(p) == null
      ensures enPassantSquares == map[White := None, Black := None]
    {
      pieces := new Piece?[N, N]((r, c) => null);
      enPassantSquares := map[White := None, Black := None];
      new;
      Repr := {this, pieces};
    }

    /** The setter of `board[pos]`: the square reads back `piece`, no other square changes. */
    method Set(pos: Position, piece: Piece?)
      requires Framed() && IsInside(pos)
      modifies this, pieces
      ensures Framed() && enPassantSquares == old(enPassantSquares)
      ensures Repr == old(Repr) + (if piece == null then {} else {piece})
      ensures Get(pos) == piece
      ensures forall q | IsInside(q) && q != pos :: Get(q) == old(Get(q))
    {
      pieces[pos.row, pos.column] := piece;
      if piece != null {
        Repr := Repr + {piece};
      }
    }

    /** The setter of `board[row, col]`. */
    method SetAt(row: int, col: int, piece: Piece?)
      requires Framed() && 0 <= row < N && 0 <= col < N
      modifies this, pieces
      ensures Framed() && enPassantSquares == old(enPassantSquares)
      ensures Repr == old(Repr) + (if piece == null then {} else {piece})
      ensures GetAt(row, col) == piece
      ensures forall r, c | 0 <= r < N && 0 <= c < N && (r, c) != (row, col) :: GetAt(r, c) == old(GetAt(r, c))
    {
      pieces[row, col] := piece;
      if piece != null {
        Repr := Repr + {piece};
      }
    }

    /**
     * The setter used to put a piece object that is not yet on the board onto
     * a square (as Copy, the loader and a promotion do): the board stays valid.
     */
    method Place(pos: Position, piece: Piece)
      requires Valid() && IsInside(pos) && piece !in Repr
      modifies this, pieces
      ensures Valid() && enPassantSquares == old(enPassantSquares)
      ensures Repr == old(Repr) + {piece}
      ensures Get(pos) == piece && Cell(pos.row, pos.column) == Some(piece.Info())
      ensures forall q | IsInside(q) && q != pos :: Get(q) == old(Get(q))
      ensures forall q | IsInside(q) && q != pos :: Cell(q.row, q.column) == old(Cell(q.row, q.column))
      ensures Snapshot() == Update(old(Snapshot()), pos, Some(piece.Info()))
    {
      Set(pos, piece);
      forall q | IsInside(q) && q != pos ensures Get(q) != piece {
        assert Get(q) == old(Get(q));
        if old(Get(q)) != null {
          assert old(Get(q)) in old(Repr);
        }
      }
      forall q | IsInside(q) && q != pos ensures Cell(q.row, q.column) == old(Cell(q.row, q.column)) {
        assert Get(q) == old(Get(q));
      }
      SameCells(Snapshot(), Update(old(Snapshot()), pos, Some(piece.Info())));
    }

    /** The setter writing null to `board[pos]`: the square is emptied and the board stays valid. */
    method Clear(pos: Position)
      requires Valid() && IsInside(pos)
      modifies this, pieces
      ensures Valid() && enPassantSquares == old(enPassantSquares) && Repr == old(Repr)
      ensures Snapshot() == Update(old(Snapshot()), pos, None)
    {
      Set(pos, null);
      forall q | IsInside(q) && q != pos ensures Cell(q.row, q.column) == old(Cell(q.row, q.column)) {
        assert Get(q) == old(Get(q));
      }
      SameCells(Snapshot(), Update(old(Snapshot()), pos, None));
    }

    /** Snapshot depends only on the objects in Repr. */
    twostate lemma SnapshotFrame()
      requires old(Framed()) && unchanged(this) && unchanged(old(Repr))
      ensures Framed() && Snapshot() == old(Snapshot())
      ensures old(Valid()) ==> Valid()
    {
      forall p | IsInside(p) ensures Cell(p.row, p.column) == old(Cell(p.row, p.column)) {
        assert Get(p) == old(Get(p));
      }
      SameCells(Snapshot(), old(Snapshot()));
    }

    /** `GetEnPassantSquares(player)`. */
    function GetEnPassantSquares(player: Player): (sq: Option<Position>)
      requires Valid()
      reads this, pieces
      ensures player in enPassantSquares && sq == enPassantSquares[player]
    {
      assert player == White || player == Black;
      enPassantSquares[player]
    }

    /** `SetEnPassantSquares(player, position)`: the player's entry reads back the value, the other's is untouched. */
    method SetEnPassantSquares(player: Player, position: Option<Position>)
      requires Valid()
      modifies this
      ensures Valid() && Repr == old(Repr) && Snapshot() == old(Snapshot())
      ensures enPassantSquares == old(enPassantSquares)[player := position]
      ensures GetEnPassantSquares(player) == position
      ensures GetEnPassantSquares(player.Opponent()) == old(GetEnPassantSquares(player.Opponent()))
    {
      enPassantSquares := enPassantSquares[player := position];
      SameCells(Snapshot(), old(Snapshot()));
    }

    /** One step of Copy: a fresh copy of `source` goes onto `pos`. */
    method PlaceCopy(pos: Position, source: Piece)
      requires Valid() && IsInside(pos)
      modifies this, pieces
      ensures Valid() && enPassantSquares == old(enPassantSquares) && fresh(Repr - old(Repr))
      ensures Snapshot() == Update(old(Snapshot()), pos, Some(source.Info()))
    {
      var piece := source.Copy();
      Place(pos, piece);
    }

    /**
     * `Copy()`: a new board with the same occupancy whose pieces are fresh
     * objects of the same type, colour and HasMoved. The en-passant entries
     * are not carried over.
     */
    method Copy() returns (copy: Board)
      requires Valid()
      ensures fresh(copy.Repr) && copy.Valid()
      ensures copy.Snapshot() == old(Snapshot())
      ensures copy.enPassantSquares == map[White := None, Black := None]
    {
      ghost var g := Snapshot();
      var ps := PiecePositions(Snapshot());
      copy := new Board();
      SameCells(copy.Snapshot(), Restrict(g, []));
      var k := 0;
      while k < |ps|
        invariant 0 <= k <= |ps|
        invariant fresh(copy.Repr) && copy.Valid()
        invariant copy.enPassantSquares == map[White := None, Black := None]
        invariant copy.Snapshot() == Restrict(g, ps[..k])
      {
        var pos := ps[k];
        assert Occupied(g, pos);
        NotYetVisited(ps, k);
        assert At(g, pos) == Some(Get(pos).Info());
        copy.PlaceCopy(pos, Get(pos));
        RestrictStep(g, ps, k);
        k := k + 1;
      }
      assert ps[..k] == ps;
      SameCells(copy.Snapshot(), g);
    }

    /** The loader's inner loop: reads line i into row i. */
    method LoadRow(lines: seq<string>, i: nat)
      requires |lines| >= N && forall i | 0 <= i < N :: |lines[i]| >= N
      requires i < N
      requires Valid() && Snapshot() == LoadedUpTo(lines, i * N)
      modifies this, pieces
      ensures Valid() && fresh(Repr - old(Repr)) && enPassantSquares == old(enPassantSquares)
      ensures Snapshot() == LoadedUpTo(lines, i * N + N)
    {
      for j := 0 to N
        invariant Valid() && fresh(Repr - old(Repr)) && enPassantSquares == old(enPassantSquares)
        invariant Snapshot() == LoadedUpTo(lines, i * N + j)
      {
        LoadSquare(lines, i, j);
      }
    }

    /** One step of the loader: reads the character for square (i, j). */
    method LoadSquare(lines: seq<string>, i: nat, j: nat)
      requires |lines| >= N && forall i | 0 <= i < N :: |lines[i]| >= N
      requires i < N && j < N
      requires Valid() && Snapshot() == LoadedUpTo(lines, i * N + j)
      modifies this, pieces
      ensures Valid() && fresh(Repr - old(Repr)) && enPassantSquares == old(enPassantSquares)
      ensures Snapshot() == LoadedUpTo(lines, i * N + j + 1)
    {
      ghost var before := Snapshot();
      var pos := Position(i, j);
      assert At(before, pos) == None;
      LoadedStep(lines, i, j);
      var found := PieceOf(lines[i][j]);
      if found.Some? {
        var piece := new Piece(found.value.0, found.value.1);
        Place(pos, piece);
      } else {
        SameCells(before, Update(before, pos, None));
      }
    }

    /**
     * `Initial`'s `AddStartPieces`, over lines already read: character j of
     * line i decides square (i, j) through PieceOf; the new pieces are unmoved.
     * Characters are Unicode scalars here, where C# indexes UTF-16 code units;
     * the two agree on text below U+10000.
     */
    static method Initial(lines: seq<string>) returns (board: Board)
      requires |lines| >= N && forall i | 0 <= i < N :: |lines[i]| >= N
      ensures fresh(board.Repr) && board.Valid()
      ensures board.Snapshot() == LoadedGrid(lines)
      ensures board.enPassantSquares == map[White := None, Black := None]
    {
      board := new Board();
      SameCells(board.Snapshot(), LoadedUpTo(lines, 0));
      for i := 0 to N
        invariant fresh(board.Repr) && board.Valid()
        invariant board.enPassantSquares == map[White := None, Black := None]
        invariant board.Snapshot() == LoadedUpTo(lines, i * N)
      {
        board.LoadRow(lines, i);
      }
      SameCells(LoadedUpTo(lines, N * N), LoadedGrid(lines));
    }
  }

  /** The grid after the loader has read the first k characters, row by row. */
  function LoadedUpTo(lines: seq<string>, k: int): (g: Grid)
    requires |lines| >= N && forall i | 0 <= i < N :: |lines[i]| >= N
    ensures forall p | IsInside(p) :: At(g, p) == if p.row * N + p.column < k then Loaded(lines[p.row][p.column]) else None
  {
    seq(N, r requires 0 <= r < N => seq(N, c requires 0 <= c < N => if r * N + c < k then Loaded(lines[r][c]) else None))
  }

  /** Reading character (i, j) loads square (i, j) and nothing else. */
  lemma LoadedStep(lines: seq<string>, i: nat, j: nat)
    requires |lines| >= N && forall i | 0 <= i < N :: |lines[i]| >= N
    requires i < N && j < N
    ensures LoadedUpTo(lines, i * N + j + 1) == Update(LoadedUpTo(lines, i * N + j), Position(i, j), Loaded(lines[i][j]))
  {
    var pos := Position(i, j);
    forall p | IsInside(p) && p != pos
      ensures (p.row * N + p.column < i * N + j + 1) == (p.row * N + p.column < i * N + j)
    {
    }
    SameCells(LoadedUpTo(lines, i * N + j + 1), Update(LoadedUpTo(lines, i * N + j), pos, Loaded(lines[i][j])));
  }

  /** The grid the loader builds from the lines. */
  function LoadedGrid(lines: seq<string>): (g: Grid)
    requires |lines| >= N && forall i | 0 <= i < N :: |lines[i]| >= N
    ensures forall p | IsInside(p) :: At(g, p) == Loaded(lines[p.row][p.column])
  {
    seq(N, r requires 0 <= r < N => seq(N, c requires 0 <= c < N => Loaded(lines[r][c])))
  }

  predicate IsAsciiLower(ch: char) { 'a' <= ch <= 'z' }
  predicate IsAsciiUpper(ch: char) { 'A' <= ch <= 'Z' }

  /** U+212A KELVIN SIGN: an uppercase letter whose simple lowercase mapping is 'k'. */
  const KelvinSign: char := '\U{212A}'

  /** The piece letters, as `char.ToLower` sees them. */
  function KindOfLower(ch: char): Option<PieceType> {
    match ch
    case 'p' => Some(Pawn)
    case 'b' => Some(Bishop)
    case 'n' => Some(Knight)
    case 'r' => Some(Rook)
    case 'q' => Some(Queen)
    case 'k' => Some(King)
    case _ => None
  }

  /**
   * The switch of AddStartPieces: a letter gives a piece, White when it is not
   * lower case; its lower-case form picks the type. Any other character, and
   * any other letter, leaves the square empty.
   */
  function PieceOf(ch: char): (r: Option<(PieceType, Player)>)
    ensures r.Some? && r.value.1 == Black ==> IsAsciiLower(ch)
    ensures r.Some? && r.value.1 == White ==> IsAsciiUpper(ch) || ch == KelvinSign
    ensures IsAsciiLower(ch) ==> r == (if KindOfLower(ch).Some? then Some((KindOfLower(ch).value, Black)) else None)
    ensures IsAsciiUpper(ch) ==>
      var lower := (ch as int + 32) as char;
      r == (if KindOfLower(lower).Some? then Some((KindOfLower(lower).value, White)) else None)
  {
    if IsAsciiLower(ch) then
      match KindOfLower(ch)
      case Some(k) => Some((k, Black))
      case None => None
    else if IsAsciiUpper(ch) || ch == KelvinSign then
      var lower := if ch == KelvinSign then 'k' else (ch as int + 32) as char;
      match KindOfLower(lower)
      case Some(k) => Some((k, White))
      case None => None
    else None
  }

  /** What the loader puts on a square for a character: an unmoved piece, or nothing. */
  function Loaded(ch: char): Option<PieceInfo> {
    match PieceOf(ch)
    case Some((k, color)) => Some(PieceInfo(k, color, false))
    case None => None
  }
}
