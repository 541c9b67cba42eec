/** `generate_fen` and the naming loop of `process_chessboard`: the square
    names given to the 64 segmentation cells, the placement of detected
    pieces on the grid, and the full position string. */
module Assembler {
  import opened Wrappers
  import opened Strings
  import opened Chess
  import opened Fen

  /** One entry of `detected_pieces`: square name, colour and the class
      name the type classifier produced. The cropped piece image the tuple
      also carries is never read by the assembler. */
  datatype Detected = Detected(square: string, color: Color, name: string)

  /** The exceptions a bad entry raises in the original: an `IndexError` or
      `ValueError` while reading the square name, a `KeyError` for an
      unknown piece name, an `IndexError` when the grid is indexed. */
  datatype AssembleError = BadSquare | UnknownPiece | OffBoard

  const FileLetters: string := "abcdefgh"

  // ---------------------------------------------------------------------
  // Square names.

  /** The name `process_chessboard` gives to cell `i`: file `'abcdefgh'[i % 8]`
      and rank `range(8, 0, -1)[i // 8]`, that is `8 - i // 8`. */
  function SquareName(i: nat): (s: string)
    requires i < 64
    ensures |s| == 2 && s[0] == FileLetters[i % 8] && IsDigit(s[1]) && DigitValue(s[1]) == 8 - i / 8
  {
    [FileLetters[i % 8], DigitChar(8 - i / 8)]
  }

  /** `(8 - int(position[1]), ord(position[0]) - ord('a'))`, before the grid
      is indexed: row and column may still be out of range or negative. */
  function SquareCoordinates(pos: string): (r: Result<(int, int), AssembleError>)
    ensures r.Ok? <==> |pos| >= 2 && IsDigit(pos[1])
    ensures r.Ok? ==> r.value.0 == 8 - DigitValue(pos[1]) && r.value.1 + 'a' as int == pos[0] as int
  {
    if |pos| < 2 || !IsDigit(pos[1]) then Err(BadSquare)
    else Ok((8 - DigitValue(pos[1]), pos[0] as int - 'a' as int))
  }

  /** Python list indexing: an index in -8..7 reaches a cell (negative ones
      count from the end), anything else raises. */
  function PyIndex(k: int): (r: Option<nat>)
    ensures r.Some? <==> -8 <= k < 8
    ensures r.Some? ==> r.value < 8 && (r.value == k || r.value == k + 8)
  {
    if 0 <= k < 8 then Some(k) else if -8 <= k < 0 then Some(k + 8) else None
  }

  /** What one entry writes, and where, checked in the order the original
      evaluates it: the square name, then the piece name, then the row and
      column indices. */
  function Entry(d: Detected): Result<(nat, nat, Piece), AssembleError>
  {
    match SquareCoordinates(d.square)
    case Err(e) => Err(e)
    case Ok((row, col)) =>
      match KindOfName(Lower(d.name))
      case None => Err(UnknownPiece)
      case Some(k) =>
        match (PyIndex(row), PyIndex(col))
        case (Some(r), Some(c)) => Ok((r, c, Piece(d.color, k)))
        case _ => Err(OffBoard)
  }

  lemma EntryInRange(d: Detected)
    ensures Entry(d).Ok? ==> Entry(d).value.0 < 8 && Entry(d).value.1 < 8
    ensures Entry(d).Ok? ==> Entry(d).value.2.color == d.color
  {
  }

  /** `generate_fen` reads back exactly the cell a name was given to. */
  lemma NamedEntry(i: nat, color: Color, name: string, k: Kind)
    requires i < 64
    requires KindOfName(Lower(name)) == Some(k)
    ensures Entry(Detected(SquareName(i), color, name)) == Ok((i / 8, i % 8, Piece(color, k)))
  {
    var s := SquareName(i);
    assert s[0] as int - 'a' as int == i % 8 by {
      assert FileLetters[i % 8] as int == 'a' as int + i % 8;
    }
  }

  // ---------------------------------------------------------------------
  // Placing the pieces.

  function SetCell(b: Board, r: nat, c: nat, x: Option<Piece>): (b': Board)
    requires r < 8 && c < 8
    ensures b'[r][c] == x
    ensures forall i, j | 0 <= i < 8 && 0 <= j < 8 && (i != r || j != c) :: b'[i][j] == b[i][j]
  {
    b[r := b[r][c := x]]
  }

  /** The loop of `generate_fen` over `detected_pieces`, stopping at the
      first entry that raises. */
  function Assemble(ds: seq<Detected>): Result<Board, AssembleError>
  {
    if |ds| == 0 then Ok(EmptyBoard())
    else
      match Assemble(ds[..|ds| - 1])
      case Err(e) => Err(e)
      case Ok(b) =>
        var e := Entry(ds[|ds| - 1]);
        if e.Err? then Err(e.error)
        else
          EntryInRange(ds[|ds| - 1]);
          Ok(SetCell(b, e.value.0, e.value.1, Some(e.value.2)))
  }

  /** Reference for the grid contents: the piece of the last entry aimed at
      cell (r, c), if any. */
  function LastAt(ds: seq<Detected>, r: nat, c: nat): Option<Piece>
  {
    if |ds| == 0 then None
    else
      var e := Entry(ds[|ds| - 1]);
      if e.Ok? && e.value.0 == r && e.value.1 == c then Some(e.value.2)
      else LastAt(ds[..|ds| - 1], r, c)
  }

  predicate AllValid(ds: seq<Detected>)
  {
    forall i | 0 <= i < |ds| :: Entry(ds[i]).Ok?
  }

  /** The assembler succeeds exactly when every entry is valid, and then the
      grid holds, on each cell, the last entry aimed at it. */
  lemma {:induction false} AssembleContents(ds: seq<Detected>)
    ensures Assemble(ds).Ok? <==> AllValid(ds)
    ensures Assemble(ds).Ok? ==>
      forall r, c | 0 <= r < 8 && 0 <= c < 8 :: Assemble(ds).value[r][c] == LastAt(ds, r, c)
  {
    if |ds| > 0 {
      AssembleContents(ds[..|ds| - 1]);
      ValidSplit(ds);
      EntryInRange(ds[|ds| - 1]);
    }
  }

  /** A non-empty list is valid when its front and its last entry are. */
  lemma ValidSplit(ds: seq<Detected>)
    requires |ds| > 0
    ensures AllValid(ds) <==> AllValid(ds[..|ds| - 1]) && Entry(ds[|ds| - 1]).Ok?
  {
    var init := ds[..|ds| - 1];
    assert forall i | 0 <= i < |init| :: init[i] == ds[i];
  }

  /** On failure the error is that of the first invalid entry. */
  lemma {:induction false} AssembleFirstError(ds: seq<Detected>)
    ensures Assemble(ds).Err? ==>
      exists i | 0 <= i < |ds| :: Entry(ds[i]) == Err(Assemble(ds).error) && AllValid(ds[..i])
  {
    if |ds| > 0 {
      var init := ds[..|ds| - 1];
      AssembleFirstError(init);
      AssembleContents(init);
      if Assemble(ds).Err? {
        if Assemble(init).Err? {
          var i :| 0 <= i < |init| && Entry(init[i]) == Err(Assemble(init).error) && AllValid(init[..i]);
          assert init[..i] == ds[..i];
          assert init[i] == ds[i];
        } else {
          var i := |ds| - 1;
          assert ds[..i] == init;
          assert Entry(ds[i]) == Err(Assemble(ds).error);
        }
      }
    }
  }

  /** A later entry for the same cell overwrites an earlier one. */
  lemma LaterWins(ds: seq<Detected>, d: Detected, r: nat, c: nat, p: Piece)
    requires Entry(d) == Ok((r, c, p))
    requires Assemble(ds).Ok?
    ensures Assemble(ds + [d]).Ok? && Assemble(ds + [d]).value[r][c] == Some(p)
  {
    assert (ds + [d])[..|ds|] == ds;
  }

  // ---------------------------------------------------------------------
  // The naming loop of process_chessboard.

  /** What the detector and the two classifiers report for one cell: nothing,
      or the colour and the class name of the piece found there. */
  datatype CellReport = Empty | Found(color: Color, name: string)

  /** `detected_pieces` after the first n cells, in cell order. */
  function Detections(cells: seq<CellReport>, n: nat): (ds: seq<Detected>)
    requires |cells| == 64 && n <= 64
    ensures |ds| <= n
  {
    if n == 0 then []
    else
      var k := n - 1;
      Detections(cells, k)
        + (match cells[k]
           case Empty => []
           case Found(color, name) => [Detected(SquareName(k), color, name)])
  }

  /** Every reported class name is one `generate_fen` knows. */
  predicate KnownNames(cells: seq<CellReport>)
  {
    forall k | 0 <= k < |cells| :: cells[k].Found? ==> KindOfName(Lower(cells[k].name)).Some?
  }

  function PieceOfReport(c: CellReport): Option<Piece>
    requires c.Found? ==> KindOfName(Lower(c.name)).Some?
  {
    match c
    case Empty => None
    case Found(color, name) => Some(Piece(color, KindOfName(Lower(name)).value))
  }

  lemma {:induction false} DetectionsLast(cells: seq<CellReport>, n: nat, r: nat, c: nat)
    requires |cells| == 64 && n <= 64 && KnownNames(cells)
    requires r < 8 && c < 8
    ensures AllValid(Detections(cells, n))
    ensures LastAt(Detections(cells, n), r, c) == (if 8 * r + c < n then PieceOfReport(cells[8 * r + c]) else None)
  {
    if n > 0 {
      var k := n - 1;
      DetectionsLast(cells, k, r, c);
      CellOf(k, r, c);
      match cells[k]
      case Empty =>
        assert Detections(cells, n) == Detections(cells, k);
      case Found(color, name) =>
        var d := Detected(SquareName(k), color, name);
        assert Detections(cells, n) == Detections(cells, k) + [d];
        NamedEntry(k, color, name, KindOfName(Lower(name)).value);
        AppendEntry(Detections(cells, k), d, r, c);
    }
  }

  /** Appending a valid entry keeps the list valid and changes the last
      piece of its own cell only. */
  lemma AppendEntry(ds: seq<Detected>, d: Detected, r: nat, c: nat)
    requires AllValid(ds) && Entry(d).Ok?
    ensures AllValid(ds + [d])
    ensures LastAt(ds + [d], r, c)
      == if Entry(d).value.0 == r && Entry(d).value.1 == c then Some(Entry(d).value.2) else LastAt(ds, r, c)
  {
    var e := ds + [d];
    assert e[..|e| - 1] == ds;
    forall i | 0 <= i < |e| ensures Entry(e[i]).Ok? {
      if i < |ds| { assert e[i] == ds[i]; }
    }
  }

  /** Cell k lies on row r, column c exactly when k = 8r + c. */
  lemma CellOf(k: nat, r: nat, c: nat)
    requires c < 8
    ensures (k / 8 == r && k % 8 == c) <==> 8 * r + c == k
  {
  }

  /** Conversely, an entry from a cell with an unknown class name makes the
      detected list invalid. */
  lemma {:induction false} DetectionsNames(cells: seq<CellReport>, n: nat)
    requires |cells| == 64 && n <= 64
    requires AllValid(Detections(cells, n))
    ensures forall k | 0 <= k < n :: cells[k].Found? ==> KindOfName(Lower(cells[k].name)).Some?
  {
    if n > 0 {
      var k := n - 1;
      var prev := Detections(cells, k);
      var ds := Detections(cells, n);
      assert AllValid(prev) by {
        forall i | 0 <= i < |prev| ensures Entry(prev[i]).Ok? {
          assert prev[i] == ds[i];
        }
      }
      DetectionsNames(cells, k);
      if cells[k].Found? {
        assert ds[|ds| - 1] == Detected(SquareName(k), cells[k].color, cells[k].name);
      }
    }
  }

  /** The detected list of all 64 cells is valid exactly when every
      reported class name is known. */
  lemma DetectionsValid(cells: seq<CellReport>)
    requires |cells| == 64
    ensures AllValid(Detections(cells, |cells|)) <==> KnownNames(cells)
  {
    if KnownNames(cells) {
      DetectionsLast(cells, |cells|, 0, 0);
    }
    if AllValid(Detections(cells, |cells|)) {
      DetectionsNames(cells, |cells|);
    }
  }

  /** The piece found in cell i lands on grid cell (i / 8, i % 8): the
      naming of `process_chessboard` and the indexing of `generate_fen`
      invert each other, so the grid is the 8x8 reshape of the reports. */
  lemma ReportsLand(cells: seq<CellReport>)
    requires |cells| == 64 && KnownNames(cells)
    ensures Assemble(Detections(cells, |cells|)).Ok?
    ensures forall i | 0 <= i < 64 :: Assemble(Detections(cells, |cells|)).value[i / 8][i % 8] == PieceOfReport(cells[i])
  {
    DetectionsValid(cells);
    AssembleContents(Detections(cells, |cells|));
    forall i | 0 <= i < 64
      ensures Assemble(Detections(cells, |cells|)).value[i / 8][i % 8] == PieceOfReport(cells[i])
    {
      ReportLands(cells, i);
    }
  }

  /** One cell of `ReportsLand`. */
  lemma ReportLands(cells: seq<CellReport>, i: nat)
    requires |cells| == 64 && KnownNames(cells) && i < 64
    requires Assemble(Detections(cells, |cells|)).Ok?
    ensures Assemble(Detections(cells, |cells|)).value[i / 8][i % 8] == PieceOfReport(cells[i])
  {
    CellLast(cells, i);
    AssembleContents(Detections(cells, |cells|));
  }

  /** The last detection aimed at grid cell (i / 8, i % 8) is cell i's. */
  lemma CellLast(cells: seq<CellReport>, i: nat)
    requires |cells| == 64 && KnownNames(cells) && i < 64
    ensures LastAt(Detections(cells, |cells|), i / 8, i % 8) == PieceOfReport(cells[i])
  {
    var r, c := i / 8, i % 8;
    assert r < 8 && c < 8 && 8 * r + c == i;
    DetectionsLast(cells, |cells|, r, c);
  }

  // ---------------------------------------------------------------------
  // The position string.

  /** `generate_fen`, with the side-to-move letter as a parameter. */
  function GenerateFen(ds: seq<Detected>, side: char): (r: Result<string, AssembleError>)
    ensures r.Ok? <==> AllValid(ds)
  {
    AssembleContents(ds);
    match Assemble(ds)
    case Err(e) => Err(e)
    case Ok(b) => Ok(FenString(b, side))
  }

  /** mode.py and white_hint.py: White to move. */
  function GenerateFenWhite(ds: seq<Detected>): Result<string, AssembleError>
  {
    GenerateFen(ds, 'w')
  }

  /** Black_Best_Move.py: Black to move. */
  function GenerateFenBlack(ds: seq<Detected>): Result<string, AssembleError>
  {
    GenerateFen(ds, 'b')
  }

  /** The position string ends with the fixed suffix and its placement field
      parses back to the grid, which holds the last entry for each cell. */
  lemma GenerateFenShape(ds: seq<Detected>, side: char)
    requires side != ' '
    requires AllValid(ds)
    ensures GenerateFen(ds, side).Ok?
    ensures
      var s := GenerateFen(ds, side).value;
      && |s| >= 13 && s[|s| - 13..] == " " + [side] + " KQkq - 0 1"
      && |Split(s, ' ')| == 6
      && ParsePlacement(Split(s, ' ')[0]).Some?
      && forall r, c | 0 <= r < 8 && 0 <= c < 8 :: ParsePlacement(Split(s, ' ')[0]).value[r][c] == LastAt(ds, r, c)
  {
    AssembleContents(ds);
    var b := Assemble(ds).value;
    FenFields(b, side);
    var s := FenString(b, side);
    assert s[|s| - 13..] == " " + [side] + " KQkq - 0 1";
  }

  /** The second field of a successful `generate_fen` is the side letter. */
  lemma FenSideField(ds: seq<Detected>, side: char)
    requires side != ' ' && AllValid(ds)
    ensures GenerateFen(ds, side).Ok?
    ensures |Split(GenerateFen(ds, side).value, ' ')| == 6
    ensures Split(GenerateFen(ds, side).value, ' ')[1] == [side]
  {
    AssembleContents(ds);
    FenFields(Assemble(ds).value, side);
  }

  /** The position string of the 64 cell reports: it exists exactly when
      every reported class name is known, and then it has six fields, the
      side letter second, and a placement whose grid cell (i / 8, i % 8)
      holds what cell i reported. */
  lemma FenOfReports(cells: seq<CellReport>, side: char)
    requires |cells| == 64 && side != ' '
    ensures GenerateFen(Detections(cells, |cells|), side).Ok? <==> KnownNames(cells)
    ensures KnownNames(cells) ==>
      var fields := Split(GenerateFen(Detections(cells, |cells|), side).value, ' ');
      && |fields| == 6 && fields[1] == [side]
      && ParsePlacement(fields[0]).Some?
      && forall i | 0 <= i < 64 :: ParsePlacement(fields[0]).value[i / 8][i % 8] == PieceOfReport(cells[i])
  {
    var ds := Detections(cells, |cells|);
    DetectionsValid(cells);
    if KnownNames(cells) {
      GenerateFenShape(ds, side);
      FenSideField(ds, side);
      forall i | 0 <= i < 64 ensures LastAt(ds, i / 8, i % 8) == PieceOfReport(cells[i]) {
        CellLast(cells, i);
      }
    }
  }

  /** The White and Black variants differ only in the side-to-move field. */
  lemma VariantsDiffer(ds: seq<Detected>)
    requires AllValid(ds)
    ensures GenerateFenWhite(ds).Ok? && GenerateFenBlack(ds).Ok?
    ensures
      var w := Split(GenerateFenWhite(ds).value, ' ');
      var k := Split(GenerateFenBlack(ds).value, ' ');
      |w| == 6 && |k| == 6 && w[1] == "w" && k[1] == "b"
      && forall i | 0 <= i < 6 && i != 1 :: w[i] == k[i]
  {
    AssembleContents(ds);
    var b := Assemble(ds).value;
    assert GenerateFenWhite(ds) == Ok(FenString(b, 'w'));
    assert GenerateFenBlack(ds) == Ok(FenString(b, 'b'));
    FenFields(b, 'w');
    FenFields(b, 'b');
  }
}
