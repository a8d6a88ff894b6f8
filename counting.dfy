/**
 * Counting.cs: a tally of pieces per colour and per type, with a running
 * total. The two dictionaries are fields the methods update in place; the
 * class invariant is that every type has a count in both and that the total
 * is the sum of all the counts.
 */
module Counts {
  import opened Geometry
  import opened Squares

  /** `Enum.GetValues(typeof(PieceType))`: every piece type once, in declaration order. */
  const AllTypes: seq<PieceType> := [Pawn, Bishop, Knight, Rook, Queen, King]

  /** AllTypes names every type. */
  lemma AllTypesListed(t: PieceType)
    ensures t in AllTypes
  {
    match t
    case Pawn => assert AllTypes[0] == t;
    case Bishop => assert AllTypes[1] == t;
    case Knight => assert AllTypes[2] == t;
    case Rook => assert AllTypes[3] == t;
    case Queen => assert AllTypes[4] == t;
    case King => assert AllTypes[5] == t;
  }

  /** A count for every type. */
  predicate HasAll(m: map<PieceType, int>) {
    forall t: PieceType :: t in m
  }

  /** A count for every type, none of them negative. */
  predicate Complete(m: map<PieceType, int>) {
    HasAll(m) && forall t: PieceType :: m[t] >= 0
  }

  /** The sum of the counts of all six types. */
  function Total(m: map<PieceType, int>): int
    requires HasAll(m)
  {
    m[Pawn] + m[Bishop] + m[Knight] + m[Rook] + m[Queen] + m[King]
  }

  /** With no negative count, each count is at most the total, which is not negative. */
  lemma EntryAtMostTotal(m: map<PieceType, int>, t: PieceType)
    requires Complete(m)
    ensures 0 <= m[t] <= Total(m)
  {
    assert m[Pawn] >= 0 && m[Bishop] >= 0 && m[Knight] >= 0 && m[Rook] >= 0 && m[Queen] >= 0 && m[King] >= 0;
  }

  class Counting {
    var whiteCount: map<PieceType, int>
    var blackCount: map<PieceType, int>
    /** `TotalCount`, only set by Increment. */
    var totalCount: int

    ghost predicate Valid()
      reads this
    {
      Complete(whiteCount) && Complete(blackCount) &&
      totalCount == Total(whiteCount) + Total(blackCount)
    }

    /** `new Counting()`: a zero count for every type of both colours, and a zero total. */
    constructor ()
      ensures Valid() && totalCount == 0
      ensures forall t: PieceType :: t in whiteCount && t in blackCount && whiteCount[t] == 0 && blackCount[t] == 0
    {
      whiteCount := map[];
      blackCount := map[];
      totalCount := 0;
      new;
      for i := 0 to |AllTypes|
        invariant forall t :: t in whiteCount <==> t in AllTypes[..i]
        invariant forall t :: t in blackCount <==> t in AllTypes[..i]
        invariant forall t | t in whiteCount :: whiteCount[t] == 0
        invariant forall t | t in blackCount :: blackCount[t] == 0
        invariant totalCount == 0
      {
        assert AllTypes[..i + 1] == AllTypes[..i] + [AllTypes[i]];
        whiteCount := whiteCount[AllTypes[i] := 0];
        blackCount := blackCount[AllTypes[i] := 0];
      }
      assert AllTypes[..|AllTypes|] == AllTypes;
      forall t: PieceType
        ensures t in AllTypes
      {
        AllTypesListed(t);
      }
    }

    /** `Increment(color, type)`: one more of that type for that colour, and one more in total. */
    method Increment(color: Player, t: PieceType)
      requires Valid()
      modifies this
      ensures Valid()
      ensures color == Player.White ==> whiteCount == old(whiteCount)[t := old(whiteCount)[t] + 1] && blackCount == old(blackCount)
      ensures color == Player.Black ==> blackCount == old(blackCount)[t := old(blackCount)[t] + 1] && whiteCount == old(whiteCount)
      ensures totalCount == old(totalCount) + 1
    {
      if color == Player.White {
        whiteCount := whiteCount[t := whiteCount[t] + 1];
      } else {
        blackCount := blackCount[t := blackCount[t] + 1];
      }
      totalCount := totalCount + 1;
    }

    /** `White(type)`: the stored count, which no other count or the total can fall below. */
    function White(t: PieceType): (n: int)
      requires Valid()
      reads this
      ensures n == whiteCount[t]
      ensures 0 <= n <= totalCount
    {
      EntryAtMostTotal(whiteCount, t);
      EntryAtMostTotal(blackCount, t);
      whiteCount[t]
    }

    /** `Black(type)`: the stored count, never above the total. */
    function Black(t: PieceType): (n: int)
      requires Valid()
      reads this
      ensures n == blackCount[t]
      ensures 0 <= n <= totalCount
    {
      EntryAtMostTotal(whiteCount, t);
      EntryAtMostTotal(blackCount, t);
      blackCount[t]
    }
  }
}
