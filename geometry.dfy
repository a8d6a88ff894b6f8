/**
 * Board coordinates (Position), step vectors (Direction) and the two sides
 * (Player). Position is an immutable value with value equality; Direction and
 * Player are declared with only what the rules use.
 */
module Geometry {
  import opened Wrappers
  import opened Numerals

  datatype Player = White | Black {
    /** The other side. */
    function Opponent(): (o: Player)
      ensures o != this
    {
      if this == White then Black else White
    }
  }

  /**
   * A step vector. Row 0 is rank 8 (see ToAlgebraic), so North, the direction
   * of White's pawns, decreases the row.
   */
  datatype Direction = Direction(rowDelta: int, columnDelta: int) {
    /** `k * dir`. */
    function Scale(k: int): (d: Direction)
      ensures d.rowDelta == k * rowDelta && d.columnDelta == k * columnDelta
    {
      Direction(k * rowDelta, k * columnDelta)
    }
  }

  const North := Direction(-1, 0)
  const South := Direction(1, 0)
  const East := Direction(0, 1)
  const West := Direction(0, -1)
  const NorthEast := Direction(-1, 1)
  const NorthWest := Direction(-1, -1)
  const SouthEast := Direction(1, 1)
  const SouthWest := Direction(1, -1)

  /** A (row, column) coordinate, 0-indexed. */
  datatype Position = Position(row: int, column: int) {

    /**
     * The colour of the square: White on even (row + column), Black on odd,
     * so White exactly when row and column have the same parity.
     */
    function SquareColor(): (c: Player)
      ensures c == White <==> row % 2 == column % 2
      ensures c == Black <==> row % 2 != column % 2
    {
      // C#'s truncating % and Dafny's Euclidean % agree on "is zero"
      if (row + column) % 2 == 0 then White else Black
    }

    /** `pos + dir`: a new position, component-wise sum. */
    function Plus(dir: Direction): (p: Position)
      ensures p.row - row == dir.rowDelta && p.column - column == dir.columnDelta
    {
      Position(row + dir.rowDelta, column + dir.columnDelta)
    }

    /**
     * File letter 'a' + column and rank 8 - row (the 8 is fixed, whatever the
     * board size). The file character must be a code point below the
     * surrogate range.
     */
    function ToAlgebraic(): (s: string)
      requires 0 <= 'a' as int + column < 0xD800
      ensures |s| >= 2 && s[0] as int == 'a' as int + column
      ensures ParseInt(s[1..]) == Some(8 - row)
    {
      var rank := IntToString(8 - row);
      ParseIntToString(8 - row);
      assert |rank| >= 1 by { assert ParseInt(rank).Some?; }
      var s := [('a' as int + column) as char] + rank;
      assert s[1..] == rank;
      s
    }
  }

  /** `pos.Equals(obj)`: obj is a Position with the same Row and Column. */
  function Equals(pos: Position, obj: Option<Position>): (eq: bool)
    ensures eq <==> obj == Some(pos)
  {
    obj.Some? && pos.row == obj.value.row && pos.column == obj.value.column
  }

  /** `left == right`, null-aware as the default equality comparer is. */
  function EqualOp(left: Option<Position>, right: Option<Position>): (eq: bool)
    ensures eq <==> left == right
  {
    if left.None? then right.None? else Equals(left.value, right)
  }

  /** `left != right`. */
  function NotEqualOp(left: Option<Position>, right: Option<Position>): (ne: bool)
    ensures ne <==> left != right
  {
    !EqualOp(left, right)
  }

  /** Reads back what ToAlgebraic writes. */
  function FromAlgebraic(s: string): (p: Option<Position>)
  {
    if |s| < 2 then None
    else match ParseInt(s[1..])
      case None => None
      case Some(rank) => Some(Position(8 - rank, s[0] as int - 'a' as int))
  }

  /** Round trip: ToAlgebraic loses nothing. */
  lemma AlgebraicRoundTrip(p: Position)
    requires 0 <= 'a' as int + p.column < 0xD800
    ensures FromAlgebraic(p.ToAlgebraic()) == Some(p)
  {
  }

  /**
   * A step keeps the square colour exactly when its two deltas sum to an even
   * number: diagonal steps keep it, orthogonal steps flip it.
   */
  lemma {:induction false} SquareColorAfterStep(p: Position, d: Direction)
    ensures p.Plus(d).SquareColor() == p.SquareColor() <==> (d.rowDelta + d.columnDelta) % 2 == 0
  {
    var a, b := p.row + p.column, d.rowDelta + d.columnDelta;
    assert p.Plus(d).row + p.Plus(d).column == a + b;
    assert (a + b) % 2 == (a % 2 + b % 2) % 2;
  }

  /** Adding `k * dir` is k steps of dir; the double push's `2*forward` is two single steps. */
  lemma PlusScale(p: Position, d: Direction, k: nat)
    ensures p.Plus(d.Scale(k + 1)) == p.Plus(d.Scale(k)).Plus(d)
    ensures p.Plus(d.Scale(2)) == p.Plus(d).Plus(d)
  {
    assert (k + 1) * d.rowDelta == k * d.rowDelta + d.rowDelta;
    assert (k + 1) * d.columnDelta == k * d.columnDelta + d.columnDelta;
  }
}
