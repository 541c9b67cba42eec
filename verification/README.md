# Chess-Move-Predictor, modelled in Dafny

Chess-Move-Predictor reads a photograph of a chessboard and turns it into a
position. It cuts the image into 64 cells. It decides for each cell whether
a piece stands there, and if so its colour and its kind. It writes the
position as a FEN string, searches it with a fail-soft alpha-beta minimax on
material, and then either names the best move (redrawing the board image
with the move applied) or gives a textual hint chosen from a table of
templates. Three scripts carry copies of this core. mode.py is the Streamlit
front end and has both perspectives. white_hint.py is the White hint used by
new.py. Black_Best_Move.py is the Black best-move script. The two Flask front
ends, new.py and app.py, add an upload-name check and a side-to-move splice.

The model is functional. Images are `seq<seq<Pixel>>`. The rules engine
(python-chess) is a record of four functions (`Search.Rules`): legal moves,
play, game over, and placement. Search values are `Score`: a finite integer
or one of the two infinities of `float('inf')`. These failures are modelled
with `Option`, `Result` or an outcome datatype: an unreadable image file, a
per-cell inspection that raises (including `cv.cvtColor` on an empty cell),
the unguarded model calls, a detection `generate_fen` cannot place, a slice
assignment of a block whose shape differs from the region's, an argmax of
an empty output, and the side splice of a one-field string. The opaque
image operations `extract_piece` and `cv.addWeighted` are total functions
here (see "## Left out").

| file | module | what it models |
|---|---|---|
| wrappers.dfy | Wrappers | `Option`, `Result` |
| strings.dfy | Strings | `split`/`join`, ASCII `lower`, digits, `:.2f` of an integer |
| score.dfy | Score | comparisons, `max`, `min` and negation over the extended integers |
| chess.dfy | Chess | pieces, squares, the 8x8 grid, `evaluate_board` |
| search.dfy | Search | `minimax` (alpha-beta) and its unpruned reference |
| select.dfy | Select | the root loops of `find_best_move` and `get_hint_from_best_move` |
| fen.dfy | Fen | the piece letters, the run-length rank encoding and its parser |
| assemble.dfy | Assembler | `generate_fen` and the cell naming of `process_chessboard` |
| classify.dfy | Classify | the occupancy, colour and piece-kind decision rules |
| image.dfy | Image | segmentation, `get/put_square_image`, empty squares, `apply_move_to_image` |
| pipeline.dfy | Pipeline | `process_chessboard` and the square geometry it shares with the image helpers |
| hint.dfy | Hint | the template table, template choice, and the hint strings of mode.py and white_hint.py |
| web.dfy | Web | `allowed_file` and the side splice of new.py |
| findings.dfy | Findings | a concrete position exhibiting the two Black-hint defects below |

The three copies of `evaluate_board` and `minimax` are textually identical.
The same holds for the three copies of `generate_fen` (apart from the
side-to-move letter) and for the template tables of mode.py and
white_hint.py. The table below cites mode.py for the shared code. It cites
the other file where that copy differs.

## Model

| member | source | states |
|---|---|---|
| Chess.EvaluateIsSquareSum | mode.py:983-992 | The per-kind count times the material value, White minus Black, equals the sum over squares of each piece's signed value. |
| Chess.ColorSwapNegates | mode.py:983-992 | Swapping the colour of every piece negates the evaluation. |
| Chess.OnlyKingsIsLevel | mode.py:984-987 | A board holding only kings evaluates to 0, because the king is worth 0. |
| Search.AlphaBetaClamped | mode.py:994-1019 | For any window with alpha < beta, the fail-soft alpha-beta value and the plain minimax value agree once both are clamped to the window. |
| Search.AlphaBetaIsMinimax | mode.py:994-1019 | At the full window (-inf, +inf) alpha-beta returns exactly the minimax value. |
| Search.MinimaxFinite | mode.py:994-1019 | When every position that is not game over has a legal move, minimax never returns an infinity. |
| Search.SearchFinite | mode.py:994-1019 | The same holds for the full-window alpha-beta the root loops call. |
| Select.ChildValueFinite | mode.py:1031-1034 | The value a root loop assigns to a child is the full-window search of that child (negated when the plan negates), and it is finite. |
| Select.RootSearchFirstBest | mode.py:1021-1045 | The root loop returns no move exactly when there are no legal moves; otherwise it returns the FIRST move whose value is best for the plan, together with that value. |
| Select.FindBestMoveWhite | mode.py:1021-1045 | For White, `find_best_move` returns the first legal move whose minimizing-child value is maximal, and None exactly when there is no legal move. |
| Select.FindBestMoveBlack | mode.py:1021-1045 | For Black, it returns the first legal move whose maximizing-child value is minimal, and None exactly when there is no legal move. |
| Select.FindBestMoveForBlackMinimises | Black_Best_Move.py:228-243 | Black_Best_Move.py's `find_best_move` is mode.py's Black branch: the first move of minimal value, None exactly without legal moves. |
| Select.BlackHintMaximises | mode.py:1062-1074 | The Black branch of the hint loop, as written, returns the first move whose maximizing-child value is MAXIMAL, reporting the negation of that value. |
| Fen.Letter | mode.py:952-960 | The letter of a piece is upper case exactly for White and lower case exactly for Black, and upper-casing it gives the kind's letter. |
| Fen.LetterRoundTrip | mode.py:952-960 | Reading back the letter of any piece gives that piece. |
| Fen.EncodeRankChars | mode.py:963-976 | A rank's encoding consists of piece letters and the digits 1 to 8 only. |
| Fen.EncodeRankNoAdjacentDigits | mode.py:963-976 | A rank's encoding never holds two digits in a row, because a run of empty cells is flushed once. |
| Fen.EncodeRankWidth | mode.py:963-976 | The letters and digit values of a rank's encoding cover exactly the cells of the row. |
| Fen.EncodeRankDecodes | mode.py:963-976 | Decoding the encoding of a row, with any pending run of empty cells in front, gives back those empty cells followed by the row. |
| Fen.RanksShape | mode.py:962-976 | Each of the eight rank strings of a board is well formed, has no '/', and decodes to its row. |
| Fen.PlacementShape | mode.py:978 | The placement field splits on '/' into eight well-formed ranks and contains exactly seven '/'. |
| Fen.PlacementRoundTrip | mode.py:962-978 | Parsing the placement field of any board gives back that board. |
| Fen.FenFields | mode.py:978-979 | The position string splits on spaces into placement, side, "KQkq", "-", "0", "1", and its placement parses to the board. |
| Assembler.SquareName | mode.py:1171-1173 | Cell i is named by file letter `'abcdefgh'[i % 8]` and by the digit of rank 8 - i / 8. |
| Assembler.SquareCoordinates | mode.py:957-958 | The square name is read as row 8 - digit and column letter - 'a'; a name shorter than two characters or without a digit second raises. |
| Assembler.PyIndex | mode.py:960 | A list index from -8 to 7 reaches a cell (negative ones count from the end); any other index raises. |
| Assembler.NamedEntry | mode.py:956-960 | An entry named after cell i, with a known kind name, is written to grid row i / 8 and column i % 8 with its colour and kind. |
| Assembler.AssembleContents | mode.py:956-960 | The placement loop succeeds exactly when every entry is valid; then each grid cell holds the piece of the LAST entry aimed at it, or nothing. |
| Assembler.AssembleFirstError | mode.py:956-960 | When the loop raises, the error is the one raised by some entry all of whose predecessors are valid. |
| Assembler.LaterWins | mode.py:960 | Appending a valid entry overwrites its target cell with the entry's piece. |
| Assembler.GenerateFen | mode.py:950-981 | `generate_fen` succeeds exactly when every entry is valid. |
| Assembler.GenerateFenShape | mode.py:950-981 | The string ends with " <side> KQkq - 0 1", has six fields, and its placement parses to the grid the entries produce. |
| Assembler.FenSideField | Black_Best_Move.py:97-128 | The second field of the string is the file's side letter. |
| Assembler.VariantsDiffer | Black_Best_Move.py:125-126 | For the same detections, Black_Best_Move.py's string and white_hint.py's string differ only in the side field, "b" against "w". |
| Assembler.DetectionsValid | mode.py:1166-1174 | The detections built from the 64 cell reports are all valid exactly when every reported class name is a known piece name. |
| Assembler.DetectionsLast | mode.py:1166-1174 | After the first n cells, the last entry aimed at grid cell (r, c) is cell 8r + c's report if that cell has been visited, and nothing otherwise. |
| Assembler.ReportsLand | mode.py:1166-1181 | With known names the assembler succeeds, and grid cell (i / 8, i % 8) holds exactly what cell i reported. |
| Assembler.FenOfReports | mode.py:1166-1181 | From 64 cell reports, `generate_fen` succeeds exactly when every name is known; then the string has six fields, the side letter, and a placement whose cell (i / 8, i % 8) holds cell i's report. |
| Classify.DetectPiece | mode.py:848-864 | A piece is present exactly when some contour's area exceeds 500; only then is a colour returned. |
| Classify.ClassifyColour | mode.py:871-886 | White when white pixels are at least twice the black ones, Black when black are at least twice white, the model's answer otherwise. |
| Classify.UndecidedNeedsBoth | mode.py:882-886 | The model is consulted only when both counts are positive; a cell with neither counts as White. |
| Classify.ClassifyColourSymmetric | mode.py:882-885 | Outside the undecided band, swapping the two counts swaps the decided colour. |
| Classify.InterpretPredictionBoundary | mode.py:910-911 | The colour model's output means White exactly when it exceeds 0.5 (0.5 itself is Black), and the decision is monotone. |
| Classify.ColourFromModel | mode.py:888-897 | Any failure or a missing model falls back to White. |
| Classify.ColourFromModelUnguarded | white_hint.py:49-53 | Without the guard, the result exists exactly when the model ran; otherwise the call raises. |
| Classify.GuardedAgrees | mode.py:888-897 | The guarded and unguarded colour lookups agree whenever the unguarded one returns, and the guarded one says White when it raises. |
| Classify.ArgMax | mode.py:946 | `np.argmax` of a nonempty output is the first index of its maximum; an empty output has none. |
| Classify.FirstMaxUnique | mode.py:946 | There is at most one first index of the maximum. |
| Classify.ClassName | mode.py:947-948 | An index below 6 names one of the six class names; any other index raises. |
| Classify.ClassesAreKinds | mode.py:947 | The six class names are six distinct piece names known to `generate_fen`, and every kind is among them. |
| Classify.ClassifyPieceName | mode.py:926-937 | The piece classifier always returns one of the six names: the first-argmax class when the model runs, and "pawn" on a missing model or any exception. |
| Classify.ClassifyColourUnguarded | white_hint.py:32-53 | Without the guard the colour rule raises exactly on a cell that neither count decides and whose model did not run; otherwise it agrees with the guarded rule. |
| Classify.ClassifyPieceNameUnguarded | white_hint.py:83-95 | Without the guard it returns a name exactly when the model runs and its first argmax is below 6, and then that class. |
| Image.Clamped | mode.py:1099-1100 | A numpy slice fits the image, and it is the requested rectangle whenever that lies inside the image. |
| Image.Slice | mode.py:1100 | The slice has the region's shape, and each pixel is the image's pixel at the offset position. |
| Image.Write | mode.py:1108 | Slice assignment of a block with exactly the region's shape succeeds and keeps the image's shape; any other block gives None (numpy broadcasting is not modelled, see "## Left out"). |
| Image.ReadAfterWrite | mode.py:1100-1108 | Reading a region after writing a block to it gives the block. |
| Image.WriteTwice | mode.py:1102-1108 | Writing a region twice is the same as writing the second block once. |
| Image.Segment | mode.py:913-924 | Segmentation yields 64 blocks, block k being the cell in row block k / 8 and column block k % 8. |
| Image.CellsTile | mode.py:916-922 | On an image at least 8s wide, every pixel of the 8s-by-8s top-left area appears in the cell (y / s) * 8 + x / s, at offset (y % s, x % s). |
| Image.ToRgb | mode.py:914 | The colour conversion swaps the first and third channels of every pixel and keeps the shape. |
| Image.ToRgbInvolutive | mode.py:914 | Converting twice gives back the image. |
| Image.Preprocess | white_hint.py:67-81 | An unreadable file is an error; otherwise the result is the 64 cells of the converted image. |
| Image.SquareRegionFull | mode.py:1094-1100 | The square of file f and rank r occupies the s-by-s block at row (7 - r) s, column f s. |
| Image.SquareIsCell | mode.py:1094-1100 | That block is segmentation cell (7 - r) * 8 + f. |
| Image.SquaresApart | mode.py:1094-1100 | Two different squares share no pixel. |
| Image.GetAfterPut | mode.py:1094-1108 | `get_square_image` after `put_square_image` returns the block put. |
| Image.PutFrame | mode.py:1102-1108 | Putting a square succeeds exactly on a block of the square's shape and changes no pixel outside the square. |
| Image.EmptySquare | mode.py:1121-1125 | The plain square is s by s and every pixel is the light or the dark fill. |
| Image.FillIdempotent | mode.py:1121-1125 | Painting a square with a plain fill twice is painting it once. |
| Image.IsLightFollowsFide | mode.py:1127-1129 | The corrected colouring makes a1 dark, h1 light, and neighbouring squares differ. |
| Image.AsWrittenInvertsColouring | mode.py:1127-1129 | The colouring as written is the exact opposite: it calls a1 light and h1 dark. |
| Image.ThreeWrites | mode.py:1143-1149 | The three writes of a move between disjoint regions all succeed, and together they repaint the destination with the overlay and the origin with its fill, leaving every other pixel as it was. |
| Image.ApplyMoveFrame | mode.py:1131-1151 | For a move between two squares, `apply_move_to_image` shows the origin's fill on the origin square, the blend of the destination's fill with the piece extracted from the ORIGINAL origin on the destination square, and changes no other pixel. |
| Image.ApplyMoveSquares | mode.py:1131-1151 | Read back, the origin square is the plain fill and the destination square is the blend. |
| Image.VacatedSquareAsWritten | mode.py:1131-1151 | As written, the vacated origin is painted with the fill of the opposite colour. |
| Image.VacatedSquare | mode.py:1131-1151 | With the corrected colouring, the vacated origin is painted with its own colour's fill. |
| Pipeline.InspectCell | mode.py:1166-1170 | A cell reports a piece exactly when some contour exceeds area 500; its colour follows the two-to-one rule with the guarded model, and its name is one of the six known classes. |
| Pipeline.InspectCellUnguarded | white_hint.py:144-147 | An unoccupied cell reports Empty without consulting a model. An occupied one raises exactly when the colour model is needed and did not run, or the piece model did not run or its first argmax is past the class list; otherwise it reports the two-to-one colour and the first-argmax class. |
| Pipeline.InspectCells | white_hint.py:143-151 | The loop stops at the first cell whose inspection raises; when none raises, it has collected the detections of all 64 reports in cell order. |
| Pipeline.ProcessChessboard | white_hint.py:130-166 | An unreadable image gives no position. Otherwise the first cell whose inspection raises (an empty cell always does) ends the call with that exception, and an image under 8 pixels high or no wider than seven squares always raises. When no cell raises, the result is `generate_fen` of the reports: it succeeds exactly when all names are known, and then cell i's report lands on placement cell (i / 8, i % 8) of a six-field string with the file's side letter. |
| Pipeline.NarrowImageRaises | white_hint.py:70-77 | With `square_size = height // 8`, an image under 8 pixels high or no wider than seven squares leaves cell 7 with no rows or no columns, and `cv.cvtColor` raises on it. |
| Pipeline.GeometryAgreesWithNaming | mode.py:1094-1100 | The square the image helpers address as (file f, rank r) is the segmentation cell that `process_chessboard` names with f's letter and digit r + 1, and `generate_fen` writes that cell's piece where the board looks for square (f, r). |
| Hint.Templates | mode.py:344-447 | Each list of the template table has fifteen entries. |
| Hint.Capitalize | mode.py:1078 | `capitalize` upper-cases the first letter and lower-cases the rest. |
| Hint.KindHasTemplates | mode.py:1077-1080 | The capitalised name of every piece kind is a key of the table, so the fallback text is never used. |
| Hint.HintIndex | mode.py:1084-1085 | The index is the raw index clamped into the list: 0 below, the last index above. |
| Hint.RawIndexIsAffine | mode.py:1084 | For an integer value v, `int((v + 4) // 0.5)` is 2v + 8. |
| Hint.ChooseTemplate | mode.py:1081-1086 | The chosen hint is always an entry of the list. |
| Hint.IndexedTemplate | mode.py:1081-1086 | For v in [-3, 3] the hint is entry 2v + 8 of the fifteen, whatever the random draw, and the clamp never fires. |
| Hint.LevelPicksMiddle | mode.py:1084-1086 | A level evaluation picks entry 8. |
| Hint.RandomTemplate | mode.py:1081-1082 | Outside [-3, 3] (infinities included), every entry of the list can be drawn. |
| Hint.HintText | mode.py:1080-1088 | The hint text is the fallback or an entry of the piece's own list. |
| Hint.Describe | mode.py:1076-1092 | Without a best move the answer is "No valid move found."; with the origin guard it never raises. |
| Hint.DescribeResult | mode.py:1076-1092 | A null move gives the fixed text. An empty origin square raises in mode.py and gives the fixed text in white_hint.py. Otherwise the hint is the template chosen from the origin piece's list, followed in mode.py by " (Evaluation: v.00)". |
| Hint.ModeHintWhite | mode.py:1047-1092 | White: the fixed text without legal moves; otherwise the hint describes the first move maximising the minimizing-child value, with that value appended. |
| Hint.WhiteHintSpec | white_hint.py:311-343 | white_hint.py: the same choice of move and template, without the evaluation suffix, and the fixed text for a null move or an empty origin. |
| Hint.ModeHintBlackAsWritten | mode.py:1062-1092 | Black, as written: no move or a null move gives the fixed text, and an empty origin square raises; otherwise the hint describes the first move MAXIMISING the maximizing-child value (White's best reply), reporting its negation. |
| Hint.CorrectedLoopAgrees | mode.py:1062-1074 | Step by step, the corrected Black loop (negate, keep the maximum) keeps the same move as the Black loop of `find_best_move` and the negation of its value. |
| Hint.CorrectedBlackHintAgrees | mode.py:1062-1074 | The corrected Black hint loop picks `find_best_move`'s Black move and reports the negated value. |
| Hint.ModeHintBlack | mode.py:1062-1092 | Black, corrected: no move or a null move gives the fixed text, and an empty origin square raises; otherwise the hint describes the first move MINIMISING the maximizing-child value, reporting the value from Black's side. |
| Hint.NewBlackHintSpec | new.py:184-192 | new.py's Black hint, corrected: no move, a null move or an empty origin gives the fixed text; otherwise it describes `find_best_move`'s Black move, the first minimising the maximizing-child value, indexed by that value from Black's side. |
| Hint.ModeHintWhiteUnchanged | mode.py:1049-1061 | The correction leaves White's hint unchanged. |
| Web.RSplitOnce | new.py:27 | `rsplit('.', 1)` gives two parts exactly when the name holds a '.', cut at the last one, and the whole name otherwise. |
| Web.RSplitAtLast | new.py:27 | The cut is at the last separator. |
| Web.AllowedFileSpec | new.py:24-27 | A name without '.' is refused; otherwise only the lower-cased text after the last '.' decides, and it must be png, jpg or jpeg. |
| Web.AllowedExtensionsAccepted | app.py:19-22 | The three extensions are accepted after any prefix. |
| Web.AllowedExtensionsAnyCase | app.py:19-22 | The comparison ignores case. |
| Web.OtherExtensionsRefused | new.py:24-27 | An empty extension, any other extension, and an accepted one followed by another are refused. |
| Web.DotFileAccepted | app.py:19-22 | A bare ".png" passes, and "png" without a dot does not. |
| Web.SideSplice | new.py:187-189 | The splice fails (raises) exactly when the string has fewer than two space-separated fields. |
| Web.SpliceFields | new.py:187-189 | The splice keeps every field except the second, which becomes "b". |
| Web.SpliceIdempotent | new.py:187-189 | Splicing twice is splicing once. |
| Web.SpliceTurnsWhiteToBlack | new.py:187-189 | Applied to white_hint.py's position string, the splice gives exactly Black_Best_Move.py's string for the same detections. |
| Findings.PawnOnA2Scores | mode.py:983-992 | A lone white pawn scores +1. |
| Findings.BlackPicksLevelLine | mode.py:1021-1045 | In a position whose two moves lead to terminal positions scoring +1 and 0, Black's `find_best_move` picks the move to 0. |
| Findings.BlackHintPicksWhitesMove | mode.py:1062-1074 | In the same position the Black hint loop as written picks the move to +1 and reports -1. |
| Findings.CorrectedHintPicksLevelLine | mode.py:1062-1074 | The corrected loop picks the move to 0. |
| Findings.BlackHintCounterexample | mode.py:1062-1074 | A concrete rules engine with two moves from the start (a white pawn left on a2, or an empty board) where `find_best_move` and the hint disagree. |
| Findings.NewBlackHintCounterexample | new.py:184-192 | On the same rules engine, white_hint.py's root loop, which new.py runs on the spliced Black-to-move position, keeps the move to +1, while `find_best_move` for Black keeps the move to 0. |
| Findings.NewBlackHintPicksLevelLine | new.py:184-192 | The corrected new.py hint loop keeps the move to 0, valued 0 from Black's side, as `find_best_move` does. |

## Left out

- Computer vision and machine learning: Canny edges, contours and their areas, HSV masks and pixel counts, resizing, and the Keras models are opaque. The model takes their results as inputs: contour areas, white and black counts, model runs (`Raised`, `NoModel`, `Predicted(output)`), and a per-cell inspection function.
- `extract_piece` and `cv.addWeighted` are opaque image functions passed to `apply_move_to_image`. The uint8 blend arithmetic is not modelled.
- `determine_square_color_from_image` (mode.py:866-869, and `determine_square_color` in the other two files) computes a value that `classify_piece_color` never reads, so it is not modelled.
- Black_Best_Move.py defines `determine_square_color` twice (26 and 278). The later, parity definition wins at import time, and only that one is modelled. It is used only by `apply_move_to_image`.
- The rules engine (legal move generation, game over, push/pop) is a parameter. `WellFormed` assumes only that a position that is not over has a legal move.
- `random.choice` is a parameter `roll`, and the choice is `roll % len`.
- Image.ApplyMoveFrame: a move whose origin and destination coincide is not covered (`from != to` is required). The rules engine never produces one.
- Image.ApplyMoveFrame: images narrower than 8 * (height // 8) are not covered by the frame lemmas. `Write` still models numpy's clamped slices for them, without broadcasting.
- Image.Write: numpy broadcasting is not modelled. A block with a size-1 axis, assigned to a region of another extent along that axis, succeeds in numpy but gives None here. Among the blocks the program writes, this concerns the 1-by-1 plain block of an image 8 to 15 pixels high written to a clamped empty region of an image narrower than eight squares, and any opaque blend output with a size-1 axis. Blocks of exactly the region's shape, and every write of a plain block on an image at least 16 pixels high, are modelled exactly.
- Search.AlphaBetaClamped: stated for windows with alpha < beta only. The search never hands a child any other window, because it stops as soon as beta <= alpha.
- Select.RootSearch and the hint lemmas require depth >= 1. mode.py's slider ranges over 1 to 5, and new.py and Black_Best_Move.py pass 4.
- Strings.Lower, Hint.Capitalize: ASCII case mapping only. Class and piece names are ASCII. Upload extensions are arbitrary text, but the verdict of `allowed_file` stays exact: the only non-ASCII characters Python lower-cases to ASCII are the Kelvin sign (to 'k') and the dotted capital I (to 'i' and a combining dot), and neither 'k' nor 'i' occurs in png, jpg or jpeg.
- Assembler.SquareCoordinates: the rank must be an ASCII digit. Python's `int` also accepts other Unicode decimal digits (such as '３' or '٣'), so a detection named like "a３" fails here but not in Python.
- Assembler.AssembleContents: its "fails exactly when some entry is invalid" holds with the ASCII-digit rule above. The names `process_chessboard` generates (Assembler.SquareName) are always ASCII, so the pipeline is unaffected.
- Pipeline.ProcessChessboard: which occupied cells raise depends on the opaque models and image operations; the model fixes only the empty-cell raise of `cv.cvtColor` and leaves the rest to the inspection function, which returns None when it raises.
- Strings.FormatFixed2: formats integers only. Search values are always integers, or infinities, which `FormatScore` renders as `inf`.
- Classify.ArgMax: NaN outputs are not modelled. Model outputs are reals.
- mode.py's `preprocess_input_image` takes an already decoded array and cannot fail on a missing file. The `None` case of Pipeline.ProcessChessboard corresponds to white_hint.py and Black_Best_Move.py, which read the file themselves.
- Display and logging code is not modelled: Streamlit, matplotlib, `print`, the `white_pieces`/`black_pieces` lists, `display_enhanced_results`, `process_and_move`, `save_plot`, and Flask routing, uploads and templates. hint.py is not part of this model.
- The template table is stored as one function per list, mapping an index to its text (`PawnHint(i)`, ...). The texts are those of mode.py:344-447, identical in white_hint.py:205-308.

## Findings

| source | as written | input that shows it | evidently intended | confidence | as-written member | corrected member |
|---|---|---|---|---|---|---|
| mode.py:1062-1074 | For Black, the hint negates each child's value and then keeps the MINIMUM of the negations, so it picks the move best for White. | A Black-to-move position with two moves, to a terminal position with a white pawn (+1) and to an empty board (0). `find_best_move` picks the move to 0, but the hint describes the move to +1 and reports -1.00. | Keep the maximum of the negated values (or the minimum of the raw ones), which is the move `find_best_move` picks for Black. | not executed | Findings.BlackHintCounterexample | Hint.ModeHintBlack |
| new.py:184-192 | `run_black_hint` sets the side to move to "b" and then calls white_hint.py's `get_hint_from_best_move`, which keeps the move MAXIMISING White's evaluation over Black's moves (with a minimizing child search). | The Black-to-move position above. white_hint.py's loop keeps the move to +1, which is the best move for White, while `find_best_move` for Black keeps the move to 0. | Describe the move `find_best_move` picks for Black: the first move minimising the maximizing child search. | not executed | Findings.NewBlackHintCounterexample | Hint.NewBlackHintSpec |
| mode.py:1127-1129 | `(file + rank) % 2 == 0` is called light, so a1 (file 0, rank 0) is light and h1 dark. | A move from h1 (file 7, rank 0), such as h1-h3: h1 is a light square, but the vacated h1 is repainted with the dark fill. | Light exactly when `(file + rank) % 2 == 1`: a1 dark, h1 light, as Article 2.1 of the FIDE Laws of Chess requires (the near right-hand corner is light). The same code is in Black_Best_Move.py:278-280. | not executed | Image.VacatedSquareAsWritten | Image.VacatedSquare |
