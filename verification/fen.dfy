/** The position assembler of `generate_fen` (mode.py, white_hint.py,
    Black_Best_Move.py): detected pieces are placed on an 8x8 grid and the
    grid is written as the piece-placement field of Forsyth-Edwards
    Notation (section 16.1 of the PGN Standard), followed by fixed
    side-to-move, castling, en-passant and move-counter fields. A small
    placement parser is the serialiser's inverse. */
module Fen {
  import opened Wrappers
  import opened Strings
  import opened Chess

  // ---------------------------------------------------------------------
  // Piece letters.

  function KindLetter(k: Kind): (c: char)
    ensures IsUpper(c)
  {
    match k
    case Pawn => 'P'
    case Knight => 'N'
    case Bishop => 'B'
    case Rook => 'R'
    case Queen => 'Q'
    case King => 'K'
  }

  /** Upper case for White, lower case for Black. */
  function Letter(p: Piece): (c: char)
    ensures IsUpper(c) <==> p.color == White
    ensures IsLower(c) <==> p.color == Black
    ensures UpperChar(c) == KindLetter(p.kind)
  {
    var u := KindLetter(p.kind);
    match p.color
    case White => u
    case Black => LowerChar(u)
  }

  function PieceOfLetter(c: char): (r: Option<Piece>)
    ensures r.Some? ==> Letter(r.value) == c
  {
    match c
    case 'P' => Some(Piece(White, Pawn))
    case 'N' => Some(Piece(White, Knight))
    case 'B' => Some(Piece(White, Bishop))
    case 'R' => Some(Piece(White, Rook))
    case 'Q' => Some(Piece(White, Queen))
    case 'K' => Some(Piece(White, King))
    case 'p' => Some(Piece(Black, Pawn))
    case 'n' => Some(Piece(Black, Knight))
    case 'b' => Some(Piece(Black, Bishop))
    case 'r' => Some(Piece(Black, Rook))
    case 'q' => Some(Piece(Black, Queen))
    case 'k' => Some(Piece(Black, King))
    case _ => None
  }

  lemma LetterRoundTrip(p: Piece)
    ensures PieceOfLetter(Letter(p)) == Some(p)
  {
  }

  /** `piece_to_fen[name]`: the class names the type classifier produces. */
  function KindOfName(name: string): Option<Kind>
  {
    if name == "pawn" then Some(Pawn)
    else if name == "knight" then Some(Knight)
    else if name == "bishop" then Some(Bishop)
    else if name == "rook" then Some(Rook)
    else if name == "queen" then Some(Queen)
    else if name == "king" then Some(King)
    else None
  }

  // ---------------------------------------------------------------------
  // One rank.

  function Nones(n: nat): (r: seq<Option<Piece>>)
    ensures |r| == n && forall i | 0 <= i < n :: r[i].None?
  {
    seq(n, _ => None)
  }

  /** The run-length loop over one row: `empty` counts the empty cells seen
      since the last piece. */
  function EncodeRank(row: seq<Option<Piece>>, empty: nat): string
    requires empty + |row| <= 8
  {
    if |row| == 0 then (if empty > 0 then [DigitChar(empty)] else "")
    else if row[0].None? then EncodeRank(row[1..], empty + 1)
    else (if empty > 0 then [DigitChar(empty)] else "") + [Letter(row[0].value)] + EncodeRank(row[1..], 0)
  }

  function DecodeRank(s: string): Option<seq<Option<Piece>>>
  {
    if |s| == 0 then Some([])
    else
      match DecodeRank(s[1..])
      case None => None
      case Some(rest) =>
        if '1' <= s[0] <= '8' then Some(Nones(DigitValue(s[0])) + rest)
        else if PieceOfLetter(s[0]).Some? then Some([PieceOfLetter(s[0])] + rest)
        else None
  }

  predicate RankChar(c: char)
  {
    PieceOfLetter(c).Some? || '1' <= c <= '8'
  }

  /** Squares covered by a rank segment: one per letter, a digit's value per
      digit. */
  function Width(s: string): int
  {
    if |s| == 0 then 0
    else (if IsDigit(s[0]) then DigitValue(s[0]) else 1) + Width(s[1..])
  }

  predicate NoAdjacentDigits(s: string)
  {
    |s| < 2 || (!(IsDigit(s[0]) && IsDigit(s[1])) && NoAdjacentDigits(s[1..]))
  }

  /** A well-formed rank segment: letters and digits 1..8 only, never two
      digits in a row, covering exactly eight squares. */
  predicate WellFormedRank(s: string)
  {
    && (forall i | 0 <= i < |s| :: RankChar(s[i]))
    && NoAdjacentDigits(s)
    && Width(s) == 8
  }

  lemma {:induction false} EncodeRankChars(row: seq<Option<Piece>>, empty: nat)
    requires empty + |row| <= 8
    ensures forall i | 0 <= i < |EncodeRank(row, empty)| :: RankChar(EncodeRank(row, empty)[i])
    decreases |row|
  {
    if |row| > 0 {
      if row[0].None? {
        EncodeRankChars(row[1..], empty + 1);
      } else {
        EncodeRankChars(row[1..], 0);
        LetterRoundTrip(row[0].value);
      }
    }
  }

  lemma {:induction false} EncodeRankNoAdjacentDigits(row: seq<Option<Piece>>, empty: nat)
    requires empty + |row| <= 8
    ensures NoAdjacentDigits(EncodeRank(row, empty))
    decreases |row|
  {
    if |row| > 0 {
      if row[0].None? {
        EncodeRankNoAdjacentDigits(row[1..], empty + 1);
      } else {
        var rest := EncodeRank(row[1..], 0);
        var tail := [Letter(row[0].value)] + rest;
        EncodeRankNoAdjacentDigits(row[1..], 0);
        assert tail[1..] == rest;
        if empty > 0 {
          var s := [DigitChar(empty)] + tail;
          assert s[1..] == tail;
        }
      }
    }
  }

  lemma {:induction false} EncodeRankWidth(row: seq<Option<Piece>>, empty: nat)
    requires empty + |row| <= 8
    ensures Width(EncodeRank(row, empty)) == empty + |row|
    decreases |row|
  {
    if |row| > 0 {
      if row[0].None? {
        EncodeRankWidth(row[1..], empty + 1);
      } else {
        var rest := EncodeRank(row[1..], 0);
        var tail := [Letter(row[0].value)] + rest;
        EncodeRankWidth(row[1..], 0);
        assert tail[1..] == rest;
        if empty > 0 {
          var s := [DigitChar(empty)] + tail;
          assert s[1..] == tail;
        }
      }
    } else if empty > 0 {
      assert [DigitChar(empty)][1..] == "";
    }
  }

  /** Decoding an encoded rank restores the row, with the pending run of
      `empty` squares in front. */
  lemma {:induction false} EncodeRankDecodes(row: seq<Option<Piece>>, empty: nat)
    requires empty + |row| <= 8
    ensures DecodeRank(EncodeRank(row, empty)) == Some(Nones(empty) + row)
    decreases |row|
  {
    var s := EncodeRank(row, empty);
    if |row| == 0 {
      if empty > 0 {
        DecodeDigit(empty, "", []);
        assert s == [DigitChar(empty)] + "";
        assert Nones(empty) + row == Nones(empty) + [];
      }
    } else if row[0].None? {
      EncodeRankDecodes(row[1..], empty + 1);
      assert Nones(empty + 1) + row[1..] == Nones(empty) + row;
    } else {
      var rest := EncodeRank(row[1..], 0);
      var tail := [Letter(row[0].value)] + rest;
      EncodeRankDecodes(row[1..], 0);
      assert Nones(0) + row[1..] == row[1..];
      DecodeLetter(row[0].value, rest, row[1..]);
      assert [row[0]] + row[1..] == row;
      if empty > 0 {
        DecodeDigit(empty, tail, row);
        assert s == [DigitChar(empty)] + tail;
      } else {
        assert s == tail;
        assert Nones(empty) + row == row;
      }
    }
  }

  /** A piece letter in front decodes to that piece in front. */
  lemma DecodeLetter(p: Piece, rest: string, row: seq<Option<Piece>>)
    requires DecodeRank(rest) == Some(row)
    ensures DecodeRank([Letter(p)] + rest) == Some([Some(p)] + row)
  {
    LetterRoundTrip(p);
    assert ([Letter(p)] + rest)[1..] == rest;
  }

  /** A digit d in front decodes to d empty squares in front. */
  lemma DecodeDigit(d: nat, rest: string, row: seq<Option<Piece>>)
    requires 1 <= d <= 8
    requires DecodeRank(rest) == Some(row)
    ensures DecodeRank([DigitChar(d)] + rest) == Some(Nones(d) + row)
  {
    assert ([DigitChar(d)] + rest)[1..] == rest;
  }

  // ---------------------------------------------------------------------
  // The placement field.

  function Ranks(b: Board): (rs: seq<string>)
    ensures |rs| == 8
  {
    seq(8, i requires 0 <= i < 8 => EncodeRank(b[i], 0))
  }

  /** Ranks 8 down to 1 joined by '/'. */
  function Placement(b: Board): string
  {
    Join(Ranks(b), '/')
  }

  function DecodeRanks(parts: seq<string>): (r: Option<seq<seq<Option<Piece>>>>)
    ensures r.Some? ==> |r.value| == |parts|
  {
    if |parts| == 0 then Some([])
    else
      match (DecodeRank(parts[0]), DecodeRanks(parts[1..]))
      case (Some(row), Some(rows)) => Some([row] + rows)
      case _ => None
  }

  /** The placement parser: eight '/'-separated ranks of eight squares. */
  function ParsePlacement(s: string): Option<Board>
  {
    var parts := Split(s, '/');
    if |parts| != 8 then None
    else
      match DecodeRanks(parts)
      case Some(rows) => if IsGrid(rows) then Some(rows) else None
      case None => None
  }

  lemma {:induction false} RanksShape(b: Board)
    ensures forall i | 0 <= i < 8 :: WellFormedRank(Ranks(b)[i]) && '/' !in Ranks(b)[i]
    ensures forall i | 0 <= i < 8 :: DecodeRank(Ranks(b)[i]) == Some(b[i])
  {
    forall i | 0 <= i < 8
      ensures WellFormedRank(Ranks(b)[i]) && '/' !in Ranks(b)[i]
      ensures DecodeRank(Ranks(b)[i]) == Some(b[i])
    {
      EncodeRankChars(b[i], 0);
      EncodeRankNoAdjacentDigits(b[i], 0);
      EncodeRankWidth(b[i], 0);
      EncodeRankDecodes(b[i], 0);
      assert Nones(0) + b[i] == b[i];
      var s := Ranks(b)[i];
      assert forall j | 0 <= j < |s| :: s[j] != '/' by {
        forall j | 0 <= j < |s| ensures s[j] != '/' {
          assert RankChar(s[j]);
        }
      }
    }
  }

  lemma {:induction false} DecodeRanksAll(parts: seq<string>, rows: seq<seq<Option<Piece>>>)
    requires |parts| == |rows|
    requires forall i | 0 <= i < |parts| :: DecodeRank(parts[i]) == Some(rows[i])
    ensures DecodeRanks(parts) == Some(rows)
  {
    if |parts| > 0 {
      DecodeRanksAll(parts[1..], rows[1..]);
      assert [rows[0]] + rows[1..] == rows;
    }
  }

  /** The placement is eight well-formed rank segments joined by seven
      '/' characters. */
  lemma PlacementShape(b: Board)
    ensures |Split(Placement(b), '/')| == 8
    ensures forall i | 0 <= i < 8 :: WellFormedRank(Split(Placement(b), '/')[i])
    ensures Occurrences(Placement(b), '/') == 7
  {
    RanksShape(b);
    SplitJoin(Ranks(b), '/');
    JoinSeparators(Ranks(b), '/');
  }

  /** Parsing the placement gives back the grid it was written from. */
  lemma PlacementRoundTrip(b: Board)
    ensures ParsePlacement(Placement(b)) == Some(b)
  {
    RanksShape(b);
    SplitJoin(Ranks(b), '/');
    DecodeRanksAll(Ranks(b), b);
  }

  // ---------------------------------------------------------------------
  // The full position string.

  /** The five fields after the placement: side to move (a parameter; 'w'
      in mode.py and white_hint.py, 'b' in Black_Best_Move.py), then the
      literals "KQkq", "-", "0" and "1". */
  function FenString(b: Board, side: char): string
  {
    Placement(b) + " " + [side] + " KQkq - 0 1"
  }

  /** The position string has exactly six space-separated fields, the first
      of which parses back to the grid. */
  lemma FenFields(b: Board, side: char)
    requires side != ' '
    ensures Split(FenString(b, side), ' ') == [Placement(b), [side], "KQkq", "-", "0", "1"]
    ensures ParsePlacement(Split(FenString(b, side), ' ')[0]) == Some(b)
  {
    var fields := [Placement(b), [side], "KQkq", "-", "0", "1"];
    PlacementNoSpace(b);
    assert Join(fields, ' ') == FenString(b, side) by {
      assert Join(fields[5..], ' ') == "1";
      assert Join(fields[4..], ' ') == "0 1";
      assert Join(fields[3..], ' ') == "- 0 1";
      assert Join(fields[2..], ' ') == "KQkq - 0 1";
      assert Join(fields[1..], ' ') == [side] + " KQkq - 0 1";
    }
    SplitJoin(fields, ' ');
    PlacementRoundTrip(b);
  }

  lemma PlacementNoSpace(b: Board)
    ensures ' ' !in Placement(b)
  {
    RanksShape(b);
    JoinNoChar(Ranks(b), '/', ' ');
  }

  lemma {:induction false} JoinNoChar(parts: seq<string>, sep: char, c: char)
    requires c != sep
    requires forall i | 0 <= i < |parts| :: forall j | 0 <= j < |parts[i]| :: RankChar(parts[i][j])
    requires !RankChar(c)
    ensures c !in Join(parts, sep)
  {
    if |parts| >= 1 {
      assert forall j | 0 <= j < |parts[0]| :: parts[0][j] != c by {
        forall j | 0 <= j < |parts[0]| ensures parts[0][j] != c {
          assert RankChar(parts[0][j]);
        }
      }
      if |parts| > 1 {
        JoinNoChar(parts[1..], sep, c);
      }
    }
  }
}
