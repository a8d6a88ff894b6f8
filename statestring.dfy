/**
 * StateString.cs: a FEN-like text of a position, built by appending to a
 * string buffer. The four fields are the piece placement (rows from row 0,
 * runs of empty squares written as one decimal count, rows separated by '/'),
 * the side to move, the castling rights and the en-passant target, separated
 * by single spaces. There are no move clocks.
 *
 * Each field is specified by a function of the board's squares; each such
 * function has a reader that takes the text back apart, and the lemmas prove
 * that reading gives back what was written.
 */
module StateStrings {
  import opened Wrappers
  import opened Numerals
  import opened Geometry
  import opened Squares
  import opened Boards

  /**
   * The answers of `Board.CastleRightKS/QS` for both sides (those queries are
   * not part of this model).
   */
  datatype CastlingRights = CastlingRights(whiteKS: bool, whiteQS: bool, blackKS: bool, blackQS: bool)

  // ---------------------------------------------------------------------------
  // Piece characters

  /** The lower-case letter of each piece type. */
  function LowerLetter(k: PieceType): (c: char)
    ensures IsAsciiLower(c) && KindOfLower(c) == Some(k)
  {
    match k
    case Pawn => 'p'
    case Knight => 'n'
    case Bishop => 'b'
    case Rook => 'r'
    case Queen => 'q'
    case King => 'k'
  }

  /** `PieceChar`: the letter of the type, upper case for White, lower case for Black. */
  function PieceChar(p: PieceInfo): (c: char)
    ensures p.color == White ==> IsAsciiUpper(c)
    ensures p.color == Black ==> IsAsciiLower(c)
  {
    var c := LowerLetter(p.kind);
    if p.color == White then (c as int - 32) as char else c
  }

  /** The loader reads a piece character back as the same type and colour. */
  lemma PieceCharLoadsBack(p: PieceInfo)
    ensures PieceOf(PieceChar(p)) == Some((p.kind, p.color))
  {
    if p.color == White {
      var c := PieceChar(p);
      assert (c as int + 32) as char == LowerLetter(p.kind);
    }
  }

  // ---------------------------------------------------------------------------
  // One row

  /** A run of `empty` empty squares: nothing for none, else the count in decimal. */
  function Run(empty: nat): (s: string)
    ensures empty == 0 ==> s == ""
    ensures 0 < empty < 10 ==> s == [DigitChar(empty)]
    ensures AllDigits(s)
  {
    if empty > 0 then NatToString(empty) else ""
  }

  /** The characters a row text is made of. */
  predicate RowChar(c: char) {
    IsDigit(c) || IsAsciiLower(c) || IsAsciiUpper(c)
  }

  /**
   * What `AddRowData` writes for the squares still to visit, `empty` empty
   * squares already counted and not yet written.
   */
  function RowText(cells: seq<Option<PieceInfo>>, empty: nat): (s: string)
    ensures forall i | 0 <= i < |s| :: RowChar(s[i])
    decreases |cells|
  {
    if cells == [] then Run(empty)
    else if cells[0].None? then RowText(cells[1..], empty + 1)
    else Run(empty) + [PieceChar(cells[0].value)] + RowText(cells[1..], 0)
  }

  /** A square as the text records it: the type and colour of its piece, if any. */
  function Shown(cell: Option<PieceInfo>): Option<(PieceType, Player)> {
    if cell.None? then None else Some((cell.value.kind, cell.value.color))
  }

  /** The squares of a row as the text records them. */
  function ShownRow(cells: seq<Option<PieceInfo>>): (r: seq<Option<(PieceType, Player)>>)
    ensures |r| == |cells| && forall i | 0 <= i < |cells| :: r[i] == Shown(cells[i])
  {
    if cells == [] then [] else [Shown(cells[0])] + ShownRow(cells[1..])
  }

  function Empties(k: nat): (r: seq<Option<(PieceType, Player)>>)
    ensures |r| == k && forall i | 0 <= i < k :: r[i] == None
  {
    seq(k, _ => None)
  }

  /**
   * Reads a row text back: a digit 1-9 stands for that many empty squares, a
   * letter for the piece the loader makes of it; anything else is malformed.
   */
  function DecodeRow(s: string): Option<seq<Option<(PieceType, Player)>>>
    decreases |s|
  {
    if s == [] then Some([])
    else
      match DecodeRow(s[1..])
      case None => None
      case Some(rest) =>
        if '1' <= s[0] <= '9' then Some(Empties(s[0] as int - '0' as int) + rest)
        else match PieceOf(s[0])
          case Some(piece) => Some([Some(piece)] + rest)
          case None => None
  }

  /** A piece letter in front of a readable text reads as that piece. */
  lemma DecodePieceFirst(p: PieceInfo, rest: string)
    requires DecodeRow(rest).Some?
    ensures DecodeRow([PieceChar(p)] + rest) == Some([Some((p.kind, p.color))] + DecodeRow(rest).value)
  {
    PieceCharLoadsBack(p);
    assert ([PieceChar(p)] + rest)[1..] == rest;
  }

  /** A run of fewer than ten empty squares in front of a readable text reads as that many empty squares. */
  lemma DecodeRunFirst(empty: nat, rest: string)
    requires empty < 10 && DecodeRow(rest).Some?
    ensures DecodeRow(Run(empty) + rest) == Some(Empties(empty) + DecodeRow(rest).value)
  {
    if empty > 0 {
      var s := Run(empty) + rest;
      assert s == [DigitChar(empty)] + rest;
      assert s[1..] == rest;
    } else {
      assert Run(empty) + rest == rest;
      assert Empties(empty) + DecodeRow(rest).value == DecodeRow(rest).value;
    }
  }

  /**
   * A row text reads back as the squares it was written from: the counts and
   * the piece letters together account for every square, in order. The counts
   * are single digits as long as a row has fewer than ten squares.
   */
  lemma {:induction false} RowTextDecodes(cells: seq<Option<PieceInfo>>, empty: nat)
    requires |cells| + empty < 10
    ensures DecodeRow(RowText(cells, empty)) == Some(Empties(empty) + ShownRow(cells))
    decreases |cells|
  {
    if cells == [] {
      DecodeRunFirst(empty, "");
      assert Run(empty) + "" == Run(empty);
      assert Empties(empty) + ShownRow(cells) == Empties(empty) + [];
    } else if cells[0].None? {
      RowTextDecodes(cells[1..], empty + 1);
      OneMoreEmpty(cells, empty);
    } else {
      RowTextDecodes(cells[1..], 0);
      DecodePieceAfterRun(cells, empty);
    }
  }

  lemma OneMoreEmpty(cells: seq<Option<PieceInfo>>, empty: nat)
    requires cells != [] && cells[0].None?
    ensures Empties(empty + 1) + ShownRow(cells[1..]) == Empties(empty) + ShownRow(cells)
  {
  }

  lemma DecodePieceAfterRun(cells: seq<Option<PieceInfo>>, empty: nat)
    requires cells != [] && cells[0].Some? && empty < 10
    requires DecodeRow(RowText(cells[1..], 0)) == Some(Empties(0) + ShownRow(cells[1..]))
    ensures DecodeRow(RowText(cells, empty)) == Some(Empties(empty) + ShownRow(cells))
  {
    var p := cells[0].value;
    var rest := RowText(cells[1..], 0);
    assert Empties(0) + ShownRow(cells[1..]) == ShownRow(cells[1..]);
    DecodePieceFirst(p, rest);
    var tail := [PieceChar(p)] + rest;
    DecodeRunFirst(empty, tail);
    Regroup3(Run(empty), [PieceChar(p)], rest);
  }

  lemma TakeOneMore(xs: seq<string>, i: nat)
    requires i < |xs|
    ensures xs[..i + 1] == xs[..i] + [xs[i]]
  {
  }

  lemma Regroup3(a: string, b: string, c: string)
    ensures a + b + c == a + (b + c)
  {
  }

  lemma Regroup(a: string, b: string, c: string, d: string)
    ensures a + (b + c + d) == a + b + c + d
  {
  }

  /** One square further along the row. */
  lemma RowTextStep(cells: seq<Option<PieceInfo>>, i: nat, empty: nat)
    requires i < |cells|
    ensures cells[i].None? ==> RowText(cells[i..], empty) == RowText(cells[i + 1..], empty + 1)
    ensures cells[i].Some? ==>
      RowText(cells[i..], empty) == Run(empty) + [PieceChar(cells[i].value)] + RowText(cells[i + 1..], 0)
  {
    assert cells[i..][0] == cells[i] && cells[i..][1..] == cells[i + 1..];
  }

  // ---------------------------------------------------------------------------
  // Joining and splitting on a separator

  /** The parts with one separator between neighbours. */
  function Join(parts: seq<string>, sep: char): string
    requires |parts| >= 1
    decreases |parts|
  {
    if |parts| == 1 then parts[0] else parts[0] + [sep] + Join(parts[1..], sep)
  }

  /** Where the first separator stands. */
  function FirstIndex(s: string, sep: char): (i: nat)
    requires sep in s
    ensures i < |s| && s[i] == sep && sep !in s[..i]
    decreases |s|
  {
    if s[0] == sep then 0
    else
      assert sep in s[1..] by {
        var k :| 0 <= k < |s| && s[k] == sep;
        assert s[1..][k - 1] == sep;
      }
      var i := 1 + FirstIndex(s[1..], sep);
      assert s[..i] == [s[0]] + s[1..][..i - 1];
      i
  }

  /** Cuts a text at every separator; k separators give k + 1 parts. */
  function Split(s: string, sep: char): (parts: seq<string>)
    ensures |parts| >= 1
    decreases |s|
  {
    if sep !in s then [s]
    else
      var i := FirstIndex(s, sep);
      [s[..i]] + Split(s[i + 1..], sep)
  }

  /** How often a character occurs in a text. */
  function Count(s: string, c: char): nat
    decreases |s|
  {
    if s == [] then 0 else (if s[0] == c then 1 else 0) + Count(s[1..], c)
  }

  /** A part, a separator and the rest: the first part is cut off at that separator. */
  lemma SplitFirst(a: string, rest: string, sep: char)
    requires sep !in a
    ensures Split(a + [sep] + rest, sep) == [a] + Split(rest, sep)
  {
    var s := a + [sep] + rest;
    assert s[..|a|] == a;
    FirstIndexIs(s, sep, |a|);
    assert s[|a| + 1..] == rest;
  }

  /** The first separator is the one with no separator before it. */
  lemma {:induction false} FirstIndexIs(s: string, sep: char, k: nat)
    requires k < |s| && s[k] == sep && sep !in s[..k]
    ensures sep in s && FirstIndex(s, sep) == k
    decreases k
  {
    assert s[k] in s;
    if k > 0 {
      assert s[0] in s[..k];
      assert s[1..][k - 1] == sep;
      assert s[1..][..k - 1] == s[1..k];
      assert forall x | x in s[1..k] :: x in s[..k];
      FirstIndexIs(s[1..], sep, k - 1);
    }
  }

  /** Splitting the joined parts gives the parts back, when none holds the separator. */
  lemma {:induction false} SplitJoin(parts: seq<string>, sep: char)
    requires |parts| >= 1 && forall i | 0 <= i < |parts| :: sep !in parts[i]
    ensures Split(Join(parts, sep), sep) == parts
    decreases |parts|
  {
    if |parts| > 1 {
      SplitJoin(parts[1..], sep);
      SplitFirst(parts[0], Join(parts[1..], sep), sep);
      assert [parts[0]] + parts[1..] == parts;
    }
  }

  /** Joining one more part adds a separator and the part at the end. */
  lemma {:induction false} JoinSnoc(parts: seq<string>, x: string, sep: char)
    requires |parts| >= 1
    ensures Join(parts + [x], sep) == Join(parts, sep) + [sep] + x
    decreases |parts|
  {
    var ps := parts + [x];
    if |parts| == 1 {
      assert ps[1..] == [x];
    } else {
      assert ps[0] == parts[0] && ps[1..] == parts[1..] + [x];
      JoinSnoc(parts[1..], x, sep);
    }
  }

  lemma {:induction false} CountAppend(s: string, t: string, c: char)
    ensures Count(s + t, c) == Count(s, c) + Count(t, c)
    decreases |s|
  {
    if s == [] {
      assert s + t == t;
    } else {
      assert (s + t)[0] == s[0] && (s + t)[1..] == s[1..] + t;
      CountAppend(s[1..], t, c);
    }
  }

  lemma {:induction false} NoneCounted(s: string, c: char)
    requires c !in s
    ensures Count(s, c) == 0
    decreases |s|
  {
    if s != [] {
      assert forall x | x in s[1..] :: x in s;
      NoneCounted(s[1..], c);
    }
  }

  /** The joined text holds exactly one separator fewer than it has parts. */
  lemma {:induction false} CountJoin(parts: seq<string>, sep: char)
    requires |parts| >= 1 && forall i | 0 <= i < |parts| :: sep !in parts[i]
    ensures Count(Join(parts, sep), sep) == |parts| - 1
    decreases |parts|
  {
    NoneCounted(parts[0], sep);
    if |parts| > 1 {
      CountJoin(parts[1..], sep);
      CountAppend(parts[0] + [sep], Join(parts[1..], sep), sep);
      CountAppend(parts[0], [sep], sep);
      assert [sep][1..] == [];
    }
  }

  // ---------------------------------------------------------------------------
  // The fields

  /** The row texts, row 0 first. */
  function Rows(g: Grid): (rs: seq<string>)
    ensures |rs| == N && forall r | 0 <= r < N :: rs[r] == RowText(g[r], 0)
  {
    seq(N, r requires 0 <= r < N => RowText(g[r], 0))
  }

  /** The placement field: the N row texts joined by '/'. */
  function Placement(g: Grid): string {
    Join(Rows(g), '/')
  }

  /** The side field: 'w' for White, 'b' otherwise. */
  function SideField(player: Player): (s: string)
    ensures |s| == 1
    ensures s[0] == 'w' <==> player == White
    ensures s[0] == 'b' <==> player == Black
  {
    if player == White then "w" else assert player == Black; "b"
  }

  /** Reads the side to move back from its field: "w" is White, anything else Black. */
  function ReadSide(s: string): Player {
    if s == "w" then White else Black
  }

  /** The side field determines the side to move. */
  lemma SideRoundTrip(player: Player)
    ensures ReadSide(SideField(player)) == player
    ensures ' ' !in SideField(player)
  {
  }

  /** The castling field: '-' when no right holds, else the held rights in the order K, Q, k, q. */
  function CastlingField(rights: CastlingRights): string {
    if !(rights.blackKS || rights.blackQS || rights.whiteKS || rights.whiteQS) then "-"
    else
      (if rights.whiteKS then "K" else "") + (if rights.whiteQS then "Q" else "") +
      (if rights.blackKS then "k" else "") + (if rights.blackQS then "q" else "")
  }

  /** Reads the castling rights back from the field: a right holds when its letter is there. */
  function ReadCastling(s: string): CastlingRights {
    CastlingRights('K' in s, 'Q' in s, 'k' in s, 'q' in s)
  }

  lemma CastlingRoundTrip(rights: CastlingRights)
    ensures ReadCastling(CastlingField(rights)) == rights
    ensures |CastlingField(rights)| >= 1 && ' ' !in CastlingField(rights)
  {
  }

  /** The place of a castling letter in "KQkq"; 4 for any other character. */
  function CastlingRank(c: char): nat {
    if c == 'K' then 0 else if c == 'Q' then 1 else if c == 'k' then 2 else if c == 'q' then 3 else 4
  }

  /**
   * The castling field is "-" exactly when no right holds; otherwise it
   * holds only castling letters, each at most once, in the order K, Q, k, q.
   */
  lemma CastlingFieldOrder(rights: CastlingRights)
    ensures var s := CastlingField(rights);
      (s == "-" <==> !(rights.whiteKS || rights.whiteQS || rights.blackKS || rights.blackQS)) &&
      (s != "-" ==> forall i | 0 <= i < |s| :: CastlingRank(s[i]) < 4) &&
      forall i, j | 0 <= i < j < |s| :: CastlingRank(s[i]) < CastlingRank(s[j])
  {
    var s := CastlingField(rights);
    if rights.whiteKS || rights.whiteQS || rights.blackKS || rights.blackQS {
      assert |s| >= 1 && s[0] in "KQkq";
    }
  }

  /** The file character of a square can be written when it is a code point below the surrogates. */
  predicate Writable(square: Option<Position>) {
    square.Some? && 0 <= 'a' as int + square.value.column < 0xD800
  }

  /** The en-passant field: '-' when no capture is possible, else file 'a' + column and rank N - row. */
  function EnPassantField(target: Option<Position>): string
    requires target.Some? ==> Writable(target)
  {
    if target.None? then "-"
    else [('a' as int + target.value.column) as char] + IntToString(N - target.value.row)
  }

  /** The en-passant target is written in algebraic notation and reads back as the square. */
  lemma EnPassantReadsBack(target: Position)
    requires Writable(Some(target))
    ensures EnPassantField(Some(target)) == target.ToAlgebraic()
    ensures FromAlgebraic(EnPassantField(Some(target))) == Some(target)
  {
    AlgebraicRoundTrip(target);
  }

  /** The whole text: the four fields separated by single spaces. */
  function StateText(g: Grid, player: Player, rights: CastlingRights, target: Option<Position>): string
    requires target.Some? ==> Writable(target)
  {
    Join([Placement(g), SideField(player), CastlingField(rights), EnPassantField(target)], ' ')
  }

  lemma JoinFour(a: string, b: string, c: string, d: string, sep: char)
    ensures Join([a, b, c, d], sep) == a + [sep] + b + [sep] + c + [sep] + d
  {
    assert [c, d][1..] == [d];
    assert Join([c, d], sep) == c + [sep] + d;
    assert [b, c, d][1..] == [c, d];
    assert Join([b, c, d], sep) == b + [sep] + c + [sep] + d;
    assert [a, b, c, d][1..] == [b, c, d];
  }

  /** No row text holds a '/' or a ' '. */
  lemma RowsHaveNoSeparators(g: Grid)
    ensures forall r | 0 <= r < N :: '/' !in Rows(g)[r] && ' ' !in Rows(g)[r]
  {
    forall r | 0 <= r < N
      ensures '/' !in Rows(g)[r] && ' ' !in Rows(g)[r]
    {
      var s := Rows(g)[r];
      assert forall i | 0 <= i < |s| :: RowChar(s[i]);
    }
  }

  /**
   * The placement field is N row texts separated by exactly N - 1 slashes,
   * and each row text reads back as the N squares of its row.
   */
  lemma PlacementReadsBack(g: Grid)
    ensures Split(Placement(g), '/') == Rows(g)
    ensures Count(Placement(g), '/') == N - 1
    ensures forall r | 0 <= r < N :: DecodeRow(Rows(g)[r]) == Some(ShownRow(g[r]))
    ensures forall r | 0 <= r < N :: |ShownRow(g[r])| == N
  {
    RowsHaveNoSeparators(g);
    SplitJoin(Rows(g), '/');
    CountJoin(Rows(g), '/');
    forall r | 0 <= r < N
      ensures DecodeRow(Rows(g)[r]) == Some(ShownRow(g[r]))
    {
      RowTextDecodes(g[r], 0);
      assert Empties(0) + ShownRow(g[r]) == ShownRow(g[r]);
    }
  }

  /**
   * The text splits at its spaces into exactly the four fields, when the
   * en-passant file is a letter.
   */
  lemma StateTextFields(g: Grid, player: Player, rights: CastlingRights, target: Option<Position>)
    requires target.Some? ==> Writable(target) && 0 <= target.value.column < N
    ensures Split(StateText(g, player, rights, target), ' ') ==
      [Placement(g), SideField(player), CastlingField(rights), EnPassantField(target)]
  {
    var fields := [Placement(g), SideField(player), CastlingField(rights), EnPassantField(target)];
    RowsHaveNoSeparators(g);
    assert ' ' !in Placement(g) by {
      PlacementHasNoSpace(Rows(g));
    }
    CastlingRoundTrip(rights);
    if target.Some? {
      var t := target.value;
      var digits := IntToString(N - t.row);
      assert N - t.row >= 0 ==> digits == NatToString(N - t.row);
      assert N - t.row < 0 ==> digits == "-" + NatToString(-(N - t.row));
      assert ' ' !in digits;
    }
    SplitJoin(fields, ' ');
  }

  lemma {:induction false} PlacementHasNoSpace(rs: seq<string>)
    requires |rs| >= 1 && forall r | 0 <= r < |rs| :: ' ' !in rs[r]
    ensures ' ' !in Join(rs, '/')
    decreases |rs|
  {
    if |rs| > 1 {
      PlacementHasNoSpace(rs[1..]);
    }
  }

  // ---------------------------------------------------------------------------
  // The builder

  class StateString {
    /** The StringBuilder: what has been appended so far. */
    var sb: string

    /**
     * `new StateString(player, board)`. The board's castling rights and
     * whether `player` can capture en passant are passed in; when it can, the
     * opponent's en-passant square must be set.
     */
    constructor (player: Player, board: Board, rights: CastlingRights, canCaptureEnPassant: bool)
      requires board.Valid()
      requires canCaptureEnPassant ==> Writable(board.GetEnPassantSquares(player.Opponent()))
      ensures sb == StateText(board.Snapshot(), player, rights,
                              if canCaptureEnPassant then board.GetEnPassantSquares(player.Opponent()) else None)
    {
      sb := "";
      new;
      assert this !in board.Repr;
      ghost var g := board.Snapshot();
      ghost var target := if canCaptureEnPassant then board.GetEnPassantSquares(player.Opponent()) else None;
      label Start:
      AddPiecePlacement(board);
      ghost var text := Placement(g);
      assert sb == text;
      sb := sb + [' '];
      AddCurrentPlayer(player);
      text := text + [' '] + SideField(player);
      assert sb == text;
      sb := sb + [' '];
      AddCastlingRights(rights);
      text := text + [' '] + CastlingField(rights);
      assert sb == text;
      sb := sb + [' '];
      board.SnapshotFrame@Start();
      assert target == if canCaptureEnPassant then board.GetEnPassantSquares(player.Opponent()) else None;
      AddEnPassant(board, player, canCaptureEnPassant);
      text := text + [' '] + EnPassantField(target);
      assert sb == text;
      board.SnapshotFrame@Start();
      JoinFour(Placement(g), SideField(player), CastlingField(rights), EnPassantField(target), ' ');
    }

    /** `AddRowData(board, row)`: the row's pieces, each run of empty squares as its count. */
    method AddRowData(board: Board, row: int)
      requires board.Valid() && 0 <= row < N && this !in board.Repr
      modifies this
      ensures sb == old(sb) + RowText(board.Snapshot()[row], 0)
    {
      ghost var cells := board.Snapshot()[row];
      var empty := 0;
      for i := 0 to N
        invariant old(sb) + RowText(cells, 0) == sb + RowText(cells[i..], empty)
        invariant board.Snapshot() == old(board.Snapshot())
      {
        var piece := board.GetAt(row, i);
        assert cells[i] == if piece == null then None else Some(piece.Info()) by {
          assert At(board.Snapshot(), Position(row, i)) == board.Cell(row, i);
        }
        RowTextStep(cells, i, empty);
        ghost var done, counted := sb, empty;
        if piece == null {
          empty := empty + 1;
        } else {
          if empty > 0 {
            sb := sb + NatToString(empty);
            empty := 0;
          }
          sb := sb + [PieceChar(piece.Info())];
          assert sb == done + Run(counted) + [PieceChar(cells[i].value)];
          Regroup(done, Run(counted), [PieceChar(cells[i].value)], RowText(cells[i + 1..], 0));
        }
        board.SnapshotFrame();
      }
      if empty > 0 {
        sb := sb + NatToString(empty);
      }
      assert cells[N..] == [];
    }

    /** `AddPiecePlacement(board)`: the rows, row 0 first, separated by '/'. */
    method AddPiecePlacement(board: Board)
      requires board.Valid() && this !in board.Repr
      modifies this
      ensures sb == old(sb) + Placement(board.Snapshot())
    {
      ghost var rows := Rows(board.Snapshot());
      for i := 0 to N
        invariant board.Snapshot() == old(board.Snapshot())
        invariant sb == old(sb) + if i == 0 then "" else Join(rows[..i], '/')
      {
        ghost var done := sb;
        if i != 0 {
          sb := sb + ['/'];
        }
        AddRowData(board, i);
        TakeOneMore(rows, i);
        if i != 0 {
          JoinSnoc(rows[..i], rows[i], '/');
          Regroup(old(sb), Join(rows[..i], '/'), ['/'], rows[i]);
        } else {
          assert rows[..1] == [rows[0]];
        }
        board.SnapshotFrame();
      }
      assert rows[..N] == rows;
    }

    /** `AddCurrentPlayer(player)`. */
    method AddCurrentPlayer(currentPlayer: Player)
      modifies this
      ensures sb == old(sb) + SideField(currentPlayer)
    {
      if currentPlayer == White {
        sb := sb + ['w'];
      } else {
        sb := sb + ['b'];
      }
    }

    /** `AddCastlingRights(board)`, with the board's four answers passed in. */
    method AddCastlingRights(rights: CastlingRights)
      modifies this
      ensures sb == old(sb) + CastlingField(rights)
    {
      if !(rights.blackKS || rights.blackQS || rights.whiteKS || rights.whiteQS) {
        sb := sb + ['-'];
        return;
      }
      if rights.whiteKS {
        sb := sb + ['K'];
      }
      if rights.whiteQS {
        sb := sb + ['Q'];
      }
      if rights.blackKS {
        sb := sb + ['k'];
      }
      if rights.blackQS {
        sb := sb + ['q'];
      }
    }

    /**
     * `AddEnPassant(board, player)`, with `Board.CanCaptureEnPassant(player)`
     * passed in: '-' when it is false, else the opponent's en-passant square.
     */
    method AddEnPassant(board: Board, player: Player, canCaptureEnPassant: bool)
      requires board.Valid() && this !in board.Repr
      requires canCaptureEnPassant ==> Writable(board.GetEnPassantSquares(player.Opponent()))
      modifies this
      ensures sb == old(sb) + EnPassantField(if canCaptureEnPassant then board.GetEnPassantSquares(player.Opponent()) else None)
    {
      if !canCaptureEnPassant {
        sb := sb + ['-'];
        return;
      }
      var pos := board.GetEnPassantSquares(player.Opponent()).value;
      var file := ('a' as int + pos.column) as char;
      var rank := N - pos.row;
      sb := sb + [file];
      sb := sb + IntToString(rank);
      assert sb == old(sb) + ([file] + IntToString(rank));
    }
  }
}
