/**
 * The contents of a board as a value: an N x N grid of optional pieces, each
 * piece seen through what the rules read of it (its type, colour and HasMoved
 * flag). The pure queries of Board.cs are defined here: IsInside, IsEmpty,
 * the indexers, PiecePositions and PiecePosCol.
 */
module Squares {
  import opened Wrappers
  import opened Geometry
  import opened Numerals

  /** Board.BoardSize, fixed at the conventional 8. */
  const N: nat := 8

  datatype PieceType = Pawn | Bishop | Knight | Rook | Queen | King

  /** What a piece object holds: Type, Color and HasMoved. */
  datatype PieceInfo = PieceInfo(kind: PieceType, color: Player, hasMoved: bool)

  predicate IsGrid(g: seq<seq<Option<PieceInfo>>>) {
    |g| == N && forall r | 0 <= r < N :: |g[r]| == N
  }

  /** Row-indexed, then column-indexed; None is an empty square. */
  type Grid = g: seq<seq<Option<PieceInfo>>> | IsGrid(g) witness seq(N, _ => seq(N, _ => None))

  predicate IsInside(pos: Position) {
    0 <= pos.row < N && 0 <= pos.column < N
  }

  /** With the fixed N = 8, the squares on the board are exactly those named a1 to h8. */
  lemma InsideIffNamed(pos: Position)
    requires 0 <= 'a' as int + pos.column < 0xD800
    ensures IsInside(pos) <==>
      'a' <= pos.ToAlgebraic()[0] <= 'h' && 1 <= ParseInt(pos.ToAlgebraic()[1..]).value <= 8
  {
  }

  /** `board[pos]`. */
  function At(g: Grid, pos: Position): Option<PieceInfo>
    requires IsInside(pos)
  {
    g[pos.row][pos.column]
  }

  predicate IsEmpty(g: Grid, pos: Position)
    requires IsInside(pos)
  {
    At(g, pos).None?
  }

  /** `board[pos] = v`: the written square reads back v, every other square is unchanged. */
  function Update(g: Grid, pos: Position, v: Option<PieceInfo>): (h: Grid)
    requires IsInside(pos)
    ensures At(h, pos) == v
    ensures forall q | IsInside(q) && q != pos :: At(h, q) == At(g, q)
  {
    g[pos.row := g[pos.row][pos.column := v]]
  }

  /** Two grids with the same squares are the same grid. */
  lemma SameCells(g: Grid, h: Grid)
    requires forall p | IsInside(p) :: At(g, p) == At(h, p)
    ensures g == h
  {
    forall r | 0 <= r < N ensures g[r] == h[r] {
      forall c | 0 <= c < N ensures g[r][c] == h[r][c] {
        assert At(g, Position(r, c)) == At(h, Position(r, c));
      }
    }
  }

  /** The grid that keeps the squares of g listed in ps and is empty elsewhere. */
  function Restrict(g: Grid, ps: seq<Position>): (h: Grid)
    ensures forall p | IsInside(p) :: At(h, p) == if p in ps then At(g, p) else None
  {
    seq(N, r requires 0 <= r < N => seq(N, c requires 0 <= c < N => if Position(r, c) in ps then g[r][c] else None))
  }

  /** Listing one more square of g adds that square. */
  lemma RestrictStep(g: Grid, ps: seq<Position>, k: nat)
    requires k < |ps| && IsInside(ps[k])
    ensures Restrict(g, ps[..k + 1]) == Update(Restrict(g, ps[..k]), ps[k], At(g, ps[k]))
  {
    assert ps[..k + 1] == ps[..k] + [ps[k]];
    SameCells(Restrict(g, ps[..k + 1]), Update(Restrict(g, ps[..k]), ps[k], At(g, ps[k])));
  }

  /** p comes strictly before q in row-major order. */
  predicate Before(p: Position, q: Position) {
    p.row < q.row || (p.row == q.row && p.column < q.column)
  }

  predicate RowMajor(s: seq<Position>) {
    forall i, j | 0 <= i < j < |s| :: Before(s[i], s[j])
  }

  /** In a row-major listing, no square comes up twice. */
  lemma NotYetVisited(s: seq<Position>, k: nat)
    requires RowMajor(s) && k < |s|
    ensures s[k] !in s[..k]
  {
    assert forall i | 0 <= i < k :: Before(s[i], s[k]);
  }

  /** A square before everything in a row-major listing may lead it. */
  lemma ConsRowMajor(x: Position, rest: seq<Position>)
    requires RowMajor(rest) && forall q | q in rest :: Before(x, q)
    ensures RowMajor([x] + rest)
  {
    var s := [x] + rest;
    forall i, j | 0 <= i < j < |s| ensures Before(s[i], s[j]) {
      assert s[j] == rest[j - 1] && rest[j - 1] in rest;
      if i > 0 {
        assert s[i] == rest[i - 1];
      }
    }
  }

  predicate Occupied(g: Grid, p: Position) {
    IsInside(p) && At(g, p).Some?
  }

  /** The two nested loops of PiecePositions, resumed at square (r, c). */
  function PiecePositionsFrom(g: Grid, r: nat, c: nat): (s: seq<Position>)
    requires r <= N && c <= N
    ensures forall p | p in s :: Occupied(g, p) && !Before(p, Position(r, c))
    ensures forall p | Occupied(g, p) && !Before(p, Position(r, c)) :: p in s
    ensures RowMajor(s)
    decreases N - r, N - c
  {
    if r == N then []
    else if c == N then PiecePositionsFrom(g, r + 1, 0)
    else
      var rest := PiecePositionsFrom(g, r, c + 1);
      if g[r][c].Some? then
        ConsRowMajor(Position(r, c), rest);
        [Position(r, c)] + rest
      else rest
  }

  /** The occupied squares, each once, in row-major order. */
  function PiecePositions(g: Grid): (s: seq<Position>)
    ensures forall p :: p in s <==> Occupied(g, p)
    ensures RowMajor(s)
  {
    PiecePositionsFrom(g, 0, 0)
  }

  /** A square is empty exactly when PiecePositions does not list it. */
  lemma EmptyIffUnlisted(g: Grid, pos: Position)
    requires IsInside(pos)
    ensures IsEmpty(g, pos) <==> pos !in PiecePositions(g)
  {
  }

  /** `Where(pos => board[pos].Color == color)`. */
  function WhereColor(g: Grid, ps: seq<Position>, color: Player): (s: seq<Position>)
    requires forall p | p in ps :: Occupied(g, p)
    ensures forall p :: p in s <==> p in ps && Occupied(g, p) && At(g, p).value.color == color
    ensures RowMajor(ps) ==> RowMajor(s)
  {
    if ps == [] then []
    else
      var rest := WhereColor(g, ps[1..], color);
      assert ps[0] in ps && Occupied(g, ps[0]);
      if At(g, ps[0]).value.color == color then
        assert RowMajor(ps) ==> RowMajor([ps[0]] + rest) by {
          if RowMajor(ps) {
            forall q | q in rest ensures Before(ps[0], q) {
              var j :| 1 <= j < |ps| && ps[j] == q;
            }
            ConsRowMajor(ps[0], rest);
          }
        }
        [ps[0]] + rest
      else rest
  }

  /** The occupied squares holding a piece of the given colour, in row-major order. */
  function PiecePosCol(g: Grid, color: Player): (s: seq<Position>)
    ensures forall p :: p in s <==> Occupied(g, p) && At(g, p).value.color == color
    ensures RowMajor(s)
  {
    WhereColor(g, PiecePositions(g), color)
  }
}
