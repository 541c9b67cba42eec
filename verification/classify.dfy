/** The decision rules applied to what the image classifiers report: the
    occupancy threshold on contour areas, the pixel-count colour rule with
    its model fallback, the 0.5 colour boundary, and the argmax over the
    piece classifier's scores. The classifiers themselves are opaque: their
    outputs are parameters. */
module Classify {
  import opened Wrappers
  import opened Strings
  import opened Chess
  import opened Fen

  // ---------------------------------------------------------------------
  // Occupancy.

  /** A contour counts as a piece when its area is strictly above 500. */
  const AreaThreshold: real := 500.0

  /** `detect_piece_in_square`: scan the contour areas in order and stop at
      the first one above the threshold; only then is the colour classifier
      consulted, and its answer is `colour`. */
  method DetectPiece(areas: seq<real>, colour: Color) returns (present: bool, found: Option<Color>)
    ensures present <==> exists i | 0 <= i < |areas| :: areas[i] > AreaThreshold
    ensures found.Some? <==> present
    ensures found.Some? ==> found.value == colour
  {
    var i := 0;
    while i < |areas|
      invariant 0 <= i <= |areas|
      invariant forall j | 0 <= j < i :: areas[j] <= AreaThreshold
    {
      if areas[i] > AreaThreshold {
        return true, Some(colour);
      }
      i := i + 1;
    }
    return false, None;
  }

  // ---------------------------------------------------------------------
  // Piece colour.

  /** Neither pixel count is at least twice the other. */
  predicate Undecided(white: nat, black: nat)
  {
    white < 2 * black && black < 2 * white
  }

  /** `classify_piece_color`: White when the white-pixel count is at least
      twice the black one, else Black when the black count is at least twice
      the white one, else whatever the colour model says. */
  function ClassifyColour(white: nat, black: nat, model: Color): (c: Color)
    ensures Undecided(white, black) ==> c == model
    ensures !Undecided(white, black) ==> (c == White <==> white >= 2 * black)
  {
    if white >= 2 * black then White
    else if black >= 2 * white then Black
    else model
  }

  /** The model is consulted only when both counts are positive; with no
      pixels of either kind the answer is White. */
  lemma UndecidedNeedsBoth(white: nat, black: nat, model: Color)
    ensures Undecided(white, black) ==> white > 0 && black > 0
    ensures ClassifyColour(0, 0, model) == White
  {
  }

  /** Apart from the empty case, exchanging the counts exchanges a decided
      answer. */
  lemma ClassifyColourSymmetric(white: nat, black: nat, model: Color)
    requires white + black > 0 && !Undecided(white, black)
    ensures !Undecided(black, white)
    ensures ClassifyColour(black, white, model) == Opponent(ClassifyColour(white, black, model))
  {
  }

  /** `interpret_prediction`: a colour-model score above 0.5 means White. */
  function InterpretPrediction(p: real): (c: Color)
  {
    if p > 0.5 then White else Black
  }

  /** The boundary: exactly 0.5 is Black, and raising a score never turns
      White into Black. */
  lemma InterpretPredictionBoundary(p: real, q: real)
    ensures InterpretPrediction(p) == White <==> p > 0.5
    ensures InterpretPrediction(0.5) == Black
    ensures p <= q && InterpretPrediction(p) == White ==> InterpretPrediction(q) == White
  {
  }

  /** What running a model produced: an exception on the way, no model at
      all (mode.py's loader returns None on failure), or an output. */
  datatype ModelRun<T> = Raised | NoModel | Predicted(output: T)

  /** mode.py's `classify_using_model`: any failure falls back to White. */
  function ColourFromModel(run: ModelRun<real>): (c: Color)
    ensures !run.Predicted? ==> c == White
  {
    match run
    case Predicted(p) => InterpretPrediction(p)
    case _ => White
  }

  /** white_hint.py's and Black_Best_Move.py's `classify_using_model`: no
      guard, so a failure propagates (None). */
  function ColourFromModelUnguarded(run: ModelRun<real>): (c: Option<Color>)
    ensures c.Some? <==> run.Predicted?
  {
    match run
    case Predicted(p) => Some(InterpretPrediction(p))
    case _ => None
  }

  /** The guarded copy agrees with the unguarded one wherever that one
      returns at all. */
  lemma GuardedAgrees(run: ModelRun<real>)
    ensures ColourFromModelUnguarded(run).Some? ==> ColourFromModel(run) == ColourFromModelUnguarded(run).value
    ensures ColourFromModelUnguarded(run).None? ==> ColourFromModel(run) == White
  {
  }

  /** white_hint.py's and Black_Best_Move.py's `classify_piece_color`: the
      two-to-one rule, then the unguarded model, whose failure propagates
      (None). It raises exactly on an undecided cell whose model did not
      run, and otherwise agrees with the guarded rule. */
  function ClassifyColourUnguarded(white: nat, black: nat, run: ModelRun<real>): (c: Option<Color>)
    ensures c.None? <==> Undecided(white, black) && !run.Predicted?
    ensures c.Some? ==> c.value == ClassifyColour(white, black, ColourFromModel(run))
  {
    if white >= 2 * black then Some(White)
    else if black >= 2 * white then Some(Black)
    else ColourFromModelUnguarded(run)
  }

  // ---------------------------------------------------------------------
  // Piece name.

  /** The classes of the piece model, in output order. */
  const PieceClasses: seq<string> := ["bishop", "king", "knight", "pawn", "queen", "rook"]

  /** Index k holds the largest score, and every earlier score is smaller:
      what `np.argmax` returns. */
  predicate IsFirstMax(ps: seq<real>, k: nat)
  {
    k < |ps|
    && (forall j | 0 <= j < |ps| :: ps[j] <= ps[k])
    && (forall j | 0 <= j < k :: ps[j] < ps[k])
  }

  /** At most one index is the first maximum. */
  lemma FirstMaxUnique(ps: seq<real>, a: nat, b: nat)
    requires IsFirstMax(ps, a) && IsFirstMax(ps, b)
    ensures a == b
  {
    assert ps[a] == ps[b];
  }

  /** `np.argmax`: None for an empty input (numpy raises). */
  method ArgMax(ps: seq<real>) returns (r: Option<nat>)
    ensures r.None? <==> |ps| == 0
    ensures r.Some? ==> IsFirstMax(ps, r.value)
  {
    if |ps| == 0 {
      return None;
    }
    var best := 0;
    var i := 1;
    while i < |ps|
      invariant 1 <= i <= |ps|
      invariant best < i
      invariant forall j | 0 <= j < i :: ps[j] <= ps[best]
      invariant forall j | 0 <= j < best :: ps[j] < ps[best]
    {
      if ps[i] > ps[best] {
        best := i;
      }
      i := i + 1;
    }
    return Some(best);
  }

  /** `piece_classes[piece_index]`: None when the index is past the list
      (IndexError). */
  function ClassName(k: nat): (r: Option<string>)
    ensures r.Some? <==> k < 6
    ensures r.Some? ==> r.value in PieceClasses
  {
    if k < 6 then Some(PieceClasses[k]) else None
  }

  /** Every class name is one `generate_fen` accepts, the six name six
      different kinds, and every kind has a class. */
  lemma ClassesAreKinds()
    ensures forall i | 0 <= i < 6 :: KindOfName(Lower(PieceClasses[i])).Some?
    ensures forall i, j | 0 <= i < j < 6 :: KindOfName(Lower(PieceClasses[i])) != KindOfName(Lower(PieceClasses[j]))
    ensures forall k: Kind :: KindClass(k) < 6 && KindOfName(Lower(PieceClasses[KindClass(k)])) == Some(k)
  {
    forall i | 0 <= i < 6 ensures KindOfName(Lower(PieceClasses[i])) == Some(ClassKind(i)) {
      ClassKindOf(i);
    }
    forall i, j | 0 <= i < j < 6 ensures ClassKind(i) != ClassKind(j) {
      ClassKindsDistinct(i, j);
    }
    forall k: Kind ensures KindClass(k) < 6 && KindOfName(Lower(PieceClasses[KindClass(k)])) == Some(k) {
      assert ClassKind(KindClass(k)) == k;
    }
  }

  /** The position of a kind's class in the model's output. */
  function KindClass(k: Kind): nat
  {
    match k
    case Bishop => 0
    case King => 1
    case Knight => 2
    case Pawn => 3
    case Queen => 4
    case Rook => 5
  }

  function ClassKind(i: nat): Kind
    requires i < 6
  {
    [Bishop, King, Knight, Pawn, Queen, Rook][i]
  }

  lemma ClassKindsDistinct(i: nat, j: nat)
    requires i < j < 6
    ensures ClassKind(i) != ClassKind(j)
  {
  }

  lemma ClassKindOf(i: nat)
    requires i < 6
    ensures KindOfName(Lower(PieceClasses[i])) == Some(ClassKind(i))
  {
    LowerFixed(PieceClasses[i]);
    if i == 0 { assert KindOfName("bishop") == Some(Bishop); }
    else if i == 1 { assert KindOfName("king") == Some(King); }
    else if i == 2 { assert KindOfName("knight") == Some(Knight); }
    else if i == 3 { assert KindOfName("pawn") == Some(Pawn); }
    else if i == 4 { assert KindOfName("queen") == Some(Queen); }
    else { assert KindOfName("rook") == Some(Rook); }
  }

  /** mode.py's `classify_piece_name`: no model or any exception (an empty
      output, an index past the class list) gives "pawn". */
  method ClassifyPieceName(run: ModelRun<seq<real>>) returns (name: string)
    ensures name in PieceClasses
    ensures !run.Predicted? ==> name == "pawn"
    ensures run.Predicted? && |run.output| == 0 ==> name == "pawn"
    ensures run.Predicted? ==>
      forall k: nat | IsFirstMax(run.output, k) :: name == if k < 6 then PieceClasses[k] else "pawn"
  {
    if !run.Predicted? {
      return "pawn";
    }
    var k := ArgMax(run.output);
    match k
    case None =>
      return "pawn";
    case Some(i) =>
      forall j | IsFirstMax(run.output, j) ensures j == i {
        FirstMaxUnique(run.output, i, j);
      }
      match ClassName(i)
      case None =>
        return "pawn";
      case Some(n) =>
        return n;
  }

  /** white_hint.py's and Black_Best_Move.py's `classify_piece_name`: no
      guard, so any failure propagates (None). */
  method ClassifyPieceNameUnguarded(run: ModelRun<seq<real>>) returns (name: Option<string>)
    ensures name.Some? ==> name.value in PieceClasses
    ensures name.Some? <==> run.Predicted? && exists k: nat | IsFirstMax(run.output, k) :: k < 6
    ensures run.Predicted? ==>
      forall k: nat | IsFirstMax(run.output, k) && k < 6 :: name == Some(PieceClasses[k])
  {
    if !run.Predicted? {
      return None;
    }
    var k := ArgMax(run.output);
    match k
    case None =>
      return None;
    case Some(i) =>
      forall j | IsFirstMax(run.output, j) ensures j == i {
        FirstMaxUnique(run.output, i, j);
      }
      return ClassName(i);
  }
}
