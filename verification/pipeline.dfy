/** `process_chessboard`: segment the image, inspect every cell, name the
    occupied ones after their squares, and serialise the position; plus the
    agreement between the image helpers' square geometry and that naming. */
module Pipeline {
  import opened Wrappers
  import opened Strings
  import opened Chess
  import opened Fen
  import opened Assembler
  import opened Image
  import opened Classify

  /** The square a segmentation cell is named after and the square whose
      region the image helpers address are the same: the region of square
      (file f, rank r) is cell (7 - r) * 8 + f, that cell is named by the
      file letter and the digit r + 1, and `generate_fen` puts what it
      reports on grid row 7 - r, column f, which is where `PieceAt` looks. */
  lemma GeometryAgreesWithNaming(img: Image, sq: Square, color: Color, name: string, k: Kind)
    requires KindOfName(Lower(name)) == Some(k)
    ensures (7 - SquareRank(sq)) * 8 + SquareFile(sq) < 64
    ensures
      var i := (7 - SquareRank(sq)) * 8 + SquareFile(sq);
      && SquareRegion(img, sq) == CellRegion(img, i)
      && SquareName(i) == [FileLetters[SquareFile(sq)], DigitChar(SquareRank(sq) + 1)]
      && Entry(Detected(SquareName(i), color, name)) == Ok((7 - SquareRank(sq), SquareFile(sq), Piece(color, k)))
  {
    SquareIsCell(img, sq);
    NameOfSquareCell(sq);
    EntryOfSquareCell(sq, color, name, k);
  }

  lemma NameOfSquareCell(sq: Square)
    ensures (7 - SquareRank(sq)) * 8 + SquareFile(sq) < 64
    ensures SquareName((7 - SquareRank(sq)) * 8 + SquareFile(sq)) == [FileLetters[SquareFile(sq)], DigitChar(SquareRank(sq) + 1)]
  {
    var f, r := SquareFile(sq), SquareRank(sq);
    var i := (7 - r) * 8 + f;
    BlockIndex(7 - r, f);
    var s := SquareName(i);
    assert s[1] == DigitChar(r + 1);
  }

  lemma EntryOfSquareCell(sq: Square, color: Color, name: string, k: Kind)
    requires KindOfName(Lower(name)) == Some(k)
    ensures (7 - SquareRank(sq)) * 8 + SquareFile(sq) < 64
    ensures Entry(Detected(SquareName((7 - SquareRank(sq)) * 8 + SquareFile(sq)), color, name))
         == Ok((7 - SquareRank(sq), SquareFile(sq), Piece(color, k)))
  {
    var f, r := SquareFile(sq), SquareRank(sq);
    BlockIndex(7 - r, f);
    NamedEntry((7 - r) * 8 + f, color, name, k);
  }

  /** mode.py's inspection of one cell: the occupancy test on the contour
      areas, the colour rule with the guarded model fallback, and the
      guarded piece-name classifier. */
  method InspectCell(areas: seq<real>, white: nat, black: nat, colourRun: ModelRun<real>,
                     nameRun: ModelRun<seq<real>>) returns (c: CellReport)
    ensures c.Found? <==> exists i | 0 <= i < |areas| :: areas[i] > AreaThreshold
    ensures c.Found? ==> c.color == ClassifyColour(white, black, ColourFromModel(colourRun))
    ensures c.Found? ==> c.name in PieceClasses && KindOfName(Lower(c.name)).Some?
  {
    var present, colour := DetectPiece(areas, ClassifyColour(white, black, ColourFromModel(colourRun)));
    if !present {
      return Empty;
    }
    var name := ClassifyPieceName(nameRun);
    ClassesAreKinds();
    return Found(colour.value, name);
  }

  /** white_hint.py's and Black_Best_Move.py's inspection of one cell:
      `detect_piece_in_square` and then `classify_piece_name`, neither
      guarded. An empty cell reports Empty without consulting a model; on an
      occupied cell the call raises (None) when the colour model is needed
      and did not run, or when the piece model did not run or its first
      argmax is past the class list. */
  method InspectCellUnguarded(areas: seq<real>, white: nat, black: nat, colourRun: ModelRun<real>,
                              nameRun: ModelRun<seq<real>>) returns (c: Option<CellReport>)
    ensures !(exists i | 0 <= i < |areas| :: areas[i] > AreaThreshold) ==> c == Some(Empty)
    ensures (exists i | 0 <= i < |areas| :: areas[i] > AreaThreshold) ==>
      (c.None? <==> (Undecided(white, black) && !colourRun.Predicted?)
                    || !(nameRun.Predicted? && exists k: nat | IsFirstMax(nameRun.output, k) :: k < 6))
    ensures c.Some? && c.value.Found? ==>
      && c.value.color == ClassifyColour(white, black, ColourFromModel(colourRun))
      && nameRun.Predicted?
      && exists k: nat | IsFirstMax(nameRun.output, k) :: k < 6 && c.value.name == PieceClasses[k]
  {
    var present, _ := DetectPiece(areas, White);
    if !present {
      return Some(Empty);
    }
    var colour := ClassifyColourUnguarded(white, black, colourRun);
    if colour.None? {
      return None;
    }
    var name := ClassifyPieceNameUnguarded(nameRun);
    if name.None? {
      return None;
    }
    return Some(Found(colour.value, name.value));
  }

  /** A block with no rows or no columns: `cv.cvtColor`, the first step of
      `detect_piece_in_square`, raises on it. */
  predicate EmptyBlock(b: Image)
  {
    |b| == 0 || |b[0]| == 0
  }

  /** The inspection of one block: an empty block raises (None) before the
      opaque inspection is reached; otherwise the inspection's own answer,
      None when it raised. */
  function Inspection(block: Image, inspect: Image -> Option<CellReport>): Option<CellReport>
  {
    if EmptyBlock(block) then None else inspect(block)
  }

  /** The inspection of each of the 64 cells of the RGB image. */
  function Inspections(img: Image, inspect: Image -> Option<CellReport>): (os: seq<Option<CellReport>>)
    requires Rect(img)
    ensures |os| == 64
  {
    var rgb := ToRgb(img);
    seq(64, k requires 0 <= k < 64 => Inspection(Cell(rgb, k), inspect))
  }

  /** The reports of inspections that all returned (a raising one reads as
      Empty; it is never consulted). */
  function Reported(os: seq<Option<CellReport>>): (cs: seq<CellReport>)
    ensures |cs| == |os|
  {
    seq(|os|, i requires 0 <= i < |os| => if os[i].Some? then os[i].value else Empty)
  }

  /** How `process_chessboard` ends: the image could not be read (the
      ValueError it catches, returning None), the inspection of some cell
      raised (the exception escapes), or `generate_fen` was reached. */
  datatype Outcome = NoImage | CellRaised(cell: nat) | Finished(fen: Result<string, AssembleError>)

  /** `process_chessboard` given what `cv.imread` returned, an opaque
      per-cell inspection that may raise (None; for white_hint.py it is
      `InspectCellUnguarded` on the cell's measurements), and the
      side-to-move letter of the file's `generate_fen`. An unreadable image
      gives no position; otherwise the first cell whose inspection raises
      ends the call, and when none does the result is `generate_fen`, which
      succeeds exactly when every reported class name is known, and then the
      position string has the six fields, the requested side to move, and a
      placement whose grid cell (i / 8, i % 8) holds what cell i reported. */
  method ProcessChessboard(read: Option<Image>, inspect: Image -> Option<CellReport>, side: char)
    returns (r: Outcome)
    requires read.Some? ==> Rect(read.value)
    requires side != ' '
    ensures r.NoImage? <==> read.None?
    ensures read.Some? ==>
      (r.CellRaised? <==> exists k | 0 <= k < 64 :: Inspections(read.value, inspect)[k].None?)
    ensures read.Some? && r.CellRaised? ==>
      var os := Inspections(read.value, inspect);
      r.cell < 64 && os[r.cell].None? && forall k | 0 <= k < r.cell :: os[k].Some?
    ensures read.Some? && (|read.value| < 8 || |read.value[0]| <= 7 * SquareSize(read.value)) ==> r.CellRaised?
    ensures read.Some? && r.Finished? ==>
      var os := Inspections(read.value, inspect);
      var reports := Reported(os);
      && (forall k | 0 <= k < 64 :: os[k] == Some(reports[k]))
      && (r.fen.Ok? <==> KnownNames(reports))
      && (r.fen.Ok? ==>
            var fields := Split(r.fen.value, ' ');
            && |fields| == 6 && fields[1] == [side]
            && ParsePlacement(fields[0]).Some?
            && forall i | 0 <= i < 64 :: ParsePlacement(fields[0]).value[i / 8][i % 8] == PieceOfReport(reports[i]))
  {
    var blocks := Preprocess(read);
    if blocks.Err? {
      return NoImage;
    }
    var img := read.value;
    ghost var os := Inspections(img, inspect);
    InspectionsOfBlocks(img, inspect, blocks.value);
    if |img| < 8 || |img[0]| <= 7 * SquareSize(img) {
      NarrowImageRaises(img, inspect);
    }
    var raised, detected := InspectCells(blocks.value, inspect, os);
    if raised.Some? {
      return CellRaised(raised.value);
    }
    var fen := GenerateFen(detected, side);
    FenOfReports(Reported(os), side);
    return Finished(fen);
  }

  /** The inspections of the segmented blocks are those of the image's cells. */
  lemma InspectionsOfBlocks(img: Image, inspect: Image -> Option<CellReport>, blocks: seq<Image>)
    requires Rect(img) && Rect(ToRgb(img)) && |blocks| == 64
    requires forall k | 0 <= k < 64 :: blocks[k] == Cell(ToRgb(img), k)
    ensures forall k | 0 <= k < 64 :: Inspections(img, inspect)[k] == Inspection(blocks[k], inspect)
  {
  }

  /** The loop of `process_chessboard` over the 64 blocks: stop at the first
      block whose inspection raises, otherwise collect the detections. */
  method InspectCells(blocks: seq<Image>, inspect: Image -> Option<CellReport>, ghost os: seq<Option<CellReport>>)
    returns (raised: Option<nat>, detected: seq<Detected>)
    requires |blocks| == 64 && |os| == 64
    requires forall k | 0 <= k < 64 :: os[k] == Inspection(blocks[k], inspect)
    ensures raised.None? <==> forall k | 0 <= k < 64 :: os[k].Some?
    ensures raised.Some? ==> raised.value < 64 && os[raised.value].None? && forall k | 0 <= k < raised.value :: os[k].Some?
    ensures raised.None? ==> detected == Detections(Reported(os), 64)
  {
    detected := [];
    var i := 0;
    while i < 64
      invariant 0 <= i <= 64
      invariant forall k | 0 <= k < i :: os[k].Some?
      invariant detected == Detections(Reported(os), i)
    {
      var report := Inspection(blocks[i], inspect);
      if report.None? {
        return Some(i), detected;
      }
      if report.value.Found? {
        detected := detected + [Detected(SquareName(i), report.value.color, report.value.name)];
      }
      i := i + 1;
    }
    return None, detected;
  }

  /** An image under 8 pixels high has squares of size 0, and one no wider
      than seven squares leaves the last column block empty: either way
      cell 7 (a8's neighbour h8) is an empty block, so its inspection
      raises. */
  lemma NarrowImageRaises(img: Image, inspect: Image -> Option<CellReport>)
    requires Rect(img)
    requires |img| < 8 || |img[0]| <= 7 * SquareSize(img)
    ensures Inspections(img, inspect)[7].None?
  {
    var rgb := ToRgb(img);
    var g := CellRegion(rgb, 7);
    assert g == Clamped(rgb, 0, SquareSize(rgb), 7 * SquareSize(rgb), 8 * SquareSize(rgb));
    assert g.rows == 0 || g.cols == 0;
    var b := Cell(rgb, 7);
    assert EmptyBlock(b);
  }
}
