/** Hint selection: `get_hint_from_best_move` of mode.py (White or Black
    to move, with an evaluation suffix) and of white_hint.py (always White,
    no suffix). The root search picks a move; the piece on its origin
    square selects a list of fifteen hint templates; the search value picks
    the template. */
module Hint {
  import opened Wrappers
  import opened Score
  import opened Strings
  import opened Chess
  import opened Search
  import opened Select

  const NoMove := "No valid move found."

  // ---------------------------------------------------------------------
  // The template table `base_hint_templates` (identical in mode.py and
  // white_hint.py).

  /** Template i of the pawn list (the last one for any larger i). */
  function PawnHint(i: nat): string
  {
    match i
    case 0 => "2.3 Consider advancing this pawn to control the center."
    case 1 => "2.5 Use this pawn to support other pieces."
    case 2 => "1.8 Push the pawn to create a stronghold for your attack."
    case 3 => "3.1 Place this pawn in front of your king for protection."
    case 4 => "2.2 Advance the pawn to block the opponent's pieces."
    case 5 => "2.7 Use this pawn to gain space on the queenside."
    case 6 => "2.1 Push the pawn to gain tempo in your development."
    case 7 => "1.9 Consider a pawn push to open up the game."
    case 8 => "2.4 Place the pawn where it can restrict the opponent's knight."
    case 9 => "2.6 Consider advancing the pawn to challenge the opponent's center."
    case 10 => "2.8 Place the pawn where it can control a key square in the center."
    case 11 => "3.0 Push the pawn to create a passed pawn in the endgame."
    case 12 => "2.1 Move the pawn to limit the movement of your opponent's pieces."
    case 13 => "2.3 Consider pushing the pawn to initiate an attack on the flank."
    case _ => "2.6 Use this pawn to defend against an incoming attack."
  }

  /** The pawn list, in order. */
  function PawnHints(): (ts: seq<string>)
    ensures |ts| == 15
  {
    seq(15, PawnHint)
  }

  /** Template i of the rook list (the last one for any larger i). */
  function RookHint(i: nat): string
  {
    match i
    case 0 => "3.1 Move the rook to an open file to maximize control."
    case 1 => "2.8 Use the rook to attack opponent's weak pawns."
    case 2 => "2.5 Consider doubling your rooks on an open file."
    case 3 => "3.0 Position your rook on the seventh rank to create pressure."
    case 4 => "2.7 Activate the rook to attack the opponent's back rank."
    case 5 => "2.4 Position your rook to support your central pawns."
    case 6 => "2.9 Keep your rook on an open file to limit the opponent's options."
    case 7 => "2.6 Place the rook behind your passed pawn to support its advancement."
    case 8 => "2.8 Use the rook to cut off the opponent's king from the center."
    case 9 => "2.3 Place the rook to defend your own king while attacking."
    case 10 => "3.1 Keep your rook active to control open lines and ranks."
    case 11 => "2.5 Use the rook to protect your pieces while launching a counterattack."
    case 12 => "2.9 Consider placing the rook in a strong defensive position to support your king."
    case 13 => "2.7 Keep the rook centralized to control more of the board."
    case _ => "2.4 Use the rook in coordination with other pieces for a checkmate threat."
  }

  /** The rook list, in order. */
  function RookHints(): (ts: seq<string>)
    ensures |ts| == 15
  {
    seq(15, RookHint)
  }

  /** Template i of the knight list (the last one for any larger i). */
  function KnightHint(i: nat): string
  {
    match i
    case 0 => "3.2 Move the knight to fork two opponent pieces."
    case 1 => "2.6 Place the knight on a central square for more control."
    case 2 => "2.3 Consider moving the knight to protect other pieces."
    case 3 => "2.8 Position your knight to control the center of the board."
    case 4 => "2.9 Place the knight on a square where it can attack key squares."
    case 5 => "2.4 Keep the knight close to the king for extra defense."
    case 6 => "3.1 Move the knight to attack undefended pieces."
    case 7 => "2.7 Position the knight to control key diagonal squares."
    case 8 => "2.5 Use the knight to protect pawns in the center."
    case 9 => "2.2 Consider a knight jump to create a tactical threat."
    case 10 => "2.9 Place the knight where it can threaten your opponent's back rank."
    case 11 => "2.6 Move the knight to a position where it can attack your opponent's pawns."
    case 12 => "3.0 Use the knight to create a double attack on your opponent's pieces."
    case 13 => "2.8 Consider a knight maneuver to create a check or fork."
    case _ => "2.4 Place the knight in an advanced position to gain more space."
  }

  /** The knight list, in order. */
  function KnightHints(): (ts: seq<string>)
    ensures |ts| == 15
  {
    seq(15, KnightHint)
  }

  /** Template i of the bishop list (the last one for any larger i). */
  function BishopHint(i: nat): string
  {
    match i
    case 0 => "3.1 Consider moving the bishop to control long diagonals."
    case 1 => "2.7 Place the bishop on an open diagonal for flexibility."
    case 2 => "2.5 Move the bishop to pin an opponent's knight."
    case 3 => "2.9 Use the bishop to control the center from a distance."
    case 4 => "2.4 Place the bishop on a light square to support your pawn structure."
    case 5 => "2.8 Place the bishop where it can attack the opponent's pawns."
    case 6 => "2.6 Use the bishop to defend against opponent's piece attacks."
    case 7 => "2.3 Position your bishop to support a kingside attack."
    case 8 => "3.0 Move the bishop to an open diagonal to control more space."
    case 9 => "2.7 Consider the bishop as a long-term defender in the endgame."
    case 10 => "2.9 Use the bishop to restrict your opponent's king's mobility."
    case 11 => "2.5 Move the bishop to a position where it can pin your opponent's pieces."
    case 12 => "2.8 Position the bishop to control multiple squares on the board."
    case 13 => "2.4 Consider using the bishop to control both sides of the board."
    case _ => "2.6 Place the bishop where it can protect your pawns from attacks."
  }

  /** The bishop list, in order. */
  function BishopHints(): (ts: seq<string>)
    ensures |ts| == 15
  {
    seq(15, BishopHint)
  }

  /** Template i of the queen list (the last one for any larger i). */
  function QueenHint(i: nat): string
  {
    match i
    case 0 => "3.2 Move the queen to support your other pieces."
    case 1 => "2.1 Avoid bringing the queen out too early in the game."
    case 2 => "2.7 Consider placing the queen on an open diagonal."
    case 3 => "2.9 Position the queen to control both the center and the flank."
    case 4 => "3.0 Use the queen to threaten the opponent's back rank."
    case 5 => "2.5 Coordinate your queen with the rooks to increase pressure."
    case 6 => "2.8 Move the queen to help create a checkmate threat."
    case 7 => "2.3 Position the queen to support a pawn promotion."
    case 8 => "2.6 Use the queen to restrict the opponent's king's mobility."
    case 9 => "3.1 Keep the queen active in the center to control key squares."
    case 10 => "2.4 Position the queen to support a kingside attack."
    case 11 => "2.7 Move the queen to a square where it can defend your pawns."
    case 12 => "2.9 Consider placing the queen on a long-range diagonal to control space."
    case 13 => "2.5 Use the queen to create a tactical threat with your knights or rooks."
    case _ => "3.0 Keep the queen near the center to maximize its influence."
  }

  /** The queen list, in order. */
  function QueenHints(): (ts: seq<string>)
    ensures |ts| == 15
  {
    seq(15, QueenHint)
  }

  /** Template i of the king list (the last one for any larger i). */
  function KingHint(i: nat): string
  {
    match i
    case 0 => "2.8 Castle early to secure your king."
    case 1 => "3.1 Move the king to safety during the endgame."
    case 2 => "2.5 Keep the king shielded by pawns."
    case 3 => "2.9 In the endgame, activate the king to support pawn advancement."
    case 4 => "2.7 Use the king to support your pieces in the late game."
    case 5 => "2.6 Move the king toward the center in the endgame for more mobility."
    case 6 => "2.3 Position the king away from the edge to avoid attacks."
    case 7 => "2.8 Consider a king maneuver to help control the center."
    case 8 => "3.0 Ensure the king is well defended as the opponent launches an attack."
    case 9 => "2.4 Place the king in a safe, defended position during the middle game."
    case 10 => "2.7 Move the king to a corner where it can be protected by pawns."
    case 11 => "2.9 Keep the king close to your advanced pawns to support their promotion."
    case 12 => "2.5 Avoid placing the king on open ranks to reduce attack vulnerability."
    case 13 => "2.8 Consider positioning the king in the center during the late game for more mobility."
    case _ => "2.6 Place the king where it can easily escape if the opponent initiates a checkmate threat."
  }

  /** The king list, in order. */
  function KingHints(): (ts: seq<string>)
    ensures |ts| == 15
  {
    seq(15, KingHint)
  }

  /** The list for each piece kind. */
  function KindHints(k: Kind): (ts: seq<string>)
    ensures |ts| == 15
  {
    match k
    case Pawn => PawnHints()
    case Knight => KnightHints()
    case Bishop => BishopHints()
    case Rook => RookHints()
    case Queen => QueenHints()
    case King => KingHints()
  }

  /** `base_hint_templates.get(name)`, keyed by capitalised piece name. */
  function Templates(name: string): (r: Option<seq<string>>)
    ensures r.Some? ==> |r.value| == 15
  {
    if name == "Pawn" then Some(PawnHints())
    else if name == "Rook" then Some(RookHints())
    else if name == "Knight" then Some(KnightHints())
    else if name == "Bishop" then Some(BishopHints())
    else if name == "Queen" then Some(QueenHints())
    else if name == "King" then Some(KingHints())
    else None
  }

  /** `chess.piece_name`. */
  function PieceName(k: Kind): string
  {
    match k
    case Pawn => "pawn"
    case Knight => "knight"
    case Bishop => "bishop"
    case Rook => "rook"
    case Queen => "queen"
    case King => "king"
  }

  /** `str.capitalize` on ASCII text. */
  function Capitalize(s: string): (r: string)
    ensures |r| == |s|
    ensures |s| > 0 ==> r[0] == UpperChar(s[0])
    ensures forall i | 1 <= i < |s| :: r[i] == LowerChar(s[i])
  {
    if |s| == 0 then "" else [UpperChar(s[0])] + Lower(s[1..])
  }

  /** The table key of each piece kind. */
  function Key(k: Kind): string
  {
    match k
    case Pawn => "Pawn"
    case Knight => "Knight"
    case Bishop => "Bishop"
    case Rook => "Rook"
    case Queen => "Queen"
    case King => "King"
  }

  /** Every piece kind finds its own list in the table, so the fallback
      text is never used. */
  lemma KindHasTemplates(k: Kind)
    ensures Templates(Capitalize(PieceName(k))) == Some(KindHints(k))
  {
    CapitalizedName(k);
    KeyFindsList(k);
  }

  /** `piece_name(...).capitalize()` is the kind's key. */
  lemma CapitalizedName(k: Kind)
    ensures Capitalize(PieceName(k)) == Key(k)
  {
    match k
    case Pawn => CapitalizedAs("pawn", "Pawn");
    case Knight => CapitalizedAs("knight", "Knight");
    case Bishop => CapitalizedAs("bishop", "Bishop");
    case Rook => CapitalizedAs("rook", "Rook");
    case Queen => CapitalizedAs("queen", "Queen");
    case King => CapitalizedAs("king", "King");
  }

  /** The table maps each key to its kind's list. */
  lemma KeyFindsList(k: Kind)
    ensures Templates(Key(k)) == Some(KindHints(k))
  {
  }

  /** A lower-case word capitalises to the word with its first letter
      raised. */
  lemma CapitalizedAs(word: string, key: string)
    requires |word| == |key| > 0
    requires IsLower(word[0]) && key[0] as int == word[0] as int - 32
    requires forall i | 1 <= i < |word| :: IsLower(word[i]) && key[i] == word[i]
    ensures Capitalize(word) == key
  {
  }

  // ---------------------------------------------------------------------
  // Choosing a template.

  /** `int((v + 4) // 0.5)`: floor division of a real by one half. */
  function RawIndex(v: int): int
  {
    ((v + 4) as real / 0.5).Floor
  }

  /** `max(0, min(raw, len - 1))`. */
  function HintIndex(v: int, len: nat): (i: nat)
    requires len > 0
    ensures i < len
    ensures 0 <= RawIndex(v) < len ==> i == RawIndex(v)
    ensures RawIndex(v) < 0 ==> i == 0
    ensures RawIndex(v) >= len ==> i == len - 1
  {
    var raw := RawIndex(v);
    if raw < 0 then 0 else if raw > len - 1 then len - 1 else raw
  }

  /** `random.choice` for values outside [-3, 3] (the roll stands for the
      random draw), the indexed template otherwise. */
  function ChooseTemplate(ts: seq<string>, value: Score, roll: nat): (h: string)
    requires |ts| > 0
    ensures h in ts
  {
    if Lt(value, Fin(-3)) || Lt(Fin(3), value) then ts[roll % |ts|]
    else ts[HintIndex(value.n, |ts|)]
  }

  /** For an integer value the raw index is exactly 2v + 8. */
  lemma RawIndexIsAffine(v: int)
    ensures RawIndex(v) == 2 * v + 8
  {
    assert (v + 4) as real / 0.5 == (2 * v + 8) as real;
  }

  /** Inside [-3, 3] the choice is deterministic: template 2v + 8 of a
      fifteen-entry list, whatever the roll, and the clamp never fires. */
  lemma IndexedTemplate(ts: seq<string>, v: int, roll: nat)
    requires |ts| == 15
    requires -3 <= v <= 3
    ensures ChooseTemplate(ts, Fin(v), roll) == ts[2 * v + 8]
    ensures RawIndex(v) == 2 * v + 8 && 2 <= RawIndex(v) <= 14
  {
    RawIndexIsAffine(v);
  }

  /** A level position picks the middle template. */
  lemma LevelPicksMiddle(ts: seq<string>, roll: nat)
    requires |ts| == 15
    ensures ChooseTemplate(ts, Fin(0), roll) == ts[8]
  {
    IndexedTemplate(ts, 0, roll);
  }

  /** Outside [-3, 3] (infinities included) the choice is random, and
      every template of the list can come out. */
  lemma RandomTemplate(ts: seq<string>, value: Score)
    requires |ts| > 0
    requires !(value.Fin? && -3 <= value.n <= 3)
    ensures forall i | 0 <= i < |ts| :: ChooseTemplate(ts, value, i) == ts[i]
  {
  }

  /** The template text for a piece kind, or the file's fallback text when
      the kind has no list. */
  function HintText(k: Kind, value: Score, roll: nat, fallback: string): (h: string)
    ensures h == fallback || h in KindHints(k)
  {
    KindHasTemplates(k);
    match Templates(Capitalize(PieceName(k)))
    case None => fallback
    case Some(ts) => ChooseTemplate(ts, value, roll)
  }

  // ---------------------------------------------------------------------
  // From the search result to the hint string.

  /** `if best_move:` on a python-chess move: false only for the null move
      (no origin, destination, promotion). */
  predicate Truthy(m: Move)
  {
    m.from != 0 || m.to != 0 || m.promotion.Some?
  }

  /** Python's `f"{v:.2f}"` of a search value. */
  function FormatScore(v: Score): string
  {
    match v
    case Fin(n) => FormatFixed2(n)
    case PosInf => "inf"
    case NegInf => "-inf"
  }

  /** Where the two copies differ: the fallback text, whether the
      evaluation is appended, and whether an empty origin square is
      reported (white_hint.py) or raises (mode.py, `None` here). */
  datatype Style = Style(fallback: string, suffix: bool, guardOrigin: bool)

  const ModeStyle := Style("Think about developing or positioning your pieces.", true, false)
  const WhiteHintStyle := Style("Consider developing your pieces and controlling the center.", false, true)

  /** The tail of `get_hint_from_best_move`, after the root loop. */
  function Describe(res: SearchResult, b: Board, roll: nat, style: Style): (h: Option<string>)
    ensures res.best.None? ==> h == Some(NoMove)
    ensures style.guardOrigin ==> h.Some?
  {
    if res.best.None? || !Truthy(res.best.value) then Some(NoMove)
    else
      match PieceAt(b, res.best.value.from)
      case None => if style.guardOrigin then Some(NoMove) else None
      case Some(piece) =>
        var text := HintText(piece.kind, res.value, roll, style.fallback);
        Some(if style.suffix then text + " (Evaluation: " + FormatScore(res.value) + ")" else text)
  }

  /** A finite result naming a move is described from the list of the
      piece on the move's origin, or by the fixed text when the move is the
      null move; an empty origin square is reported or raises. */
  lemma DescribeResult(res: SearchResult, b: Board, roll: nat, style: Style, m: Move)
    requires res.best == Some(m) && res.value.Fin?
    ensures !Truthy(m) ==> Describe(res, b, roll, style) == Some(NoMove)
    ensures Truthy(m) && PieceAt(b, m.from).None? ==>
      Describe(res, b, roll, style) == if style.guardOrigin then Some(NoMove) else None
    ensures Truthy(m) && PieceAt(b, m.from).Some? ==>
      var t := ChooseTemplate(KindHints(PieceAt(b, m.from).value.kind), res.value, roll);
      Describe(res, b, roll, style) == Some(if style.suffix then t + " (Evaluation: " + FormatFixed2(res.value.n) + ")" else t)
  {
    if Truthy(m) && PieceAt(b, m.from).Some? {
      KindHasTemplates(PieceAt(b, m.from).value.kind);
    }
  }

  /** mode.py's root loop for a perspective, given the plan used for Black. */
  function ModePlan(perspective: Color, blackPlan: RootPlan): RootPlan
  {
    if perspective == White then WhitePlan else blackPlan
  }

  /** `get_hint_from_best_move(board, depth, perspective)` of mode.py as
      written; `None` is the exception raised for an empty origin square. */
  function ModeHintAsWritten<P>(r: Rules<P>, p: P, depth: nat, perspective: Color, roll: nat): Option<string>
    requires depth >= 1
  {
    Describe(RootSearch(r, p, depth, ModePlan(perspective, BlackHintPlan)), r.placement(p), roll, ModeStyle)
  }

  /** `get_hint_from_best_move(board, depth)` of white_hint.py. */
  function WhiteHint<P>(r: Rules<P>, p: P, depth: nat, roll: nat): string
    requires depth >= 1
  {
    Describe(RootSearch(r, p, depth, WhitePlan), r.placement(p), roll, WhiteHintStyle).value
  }

  // ---------------------------------------------------------------------
  // What the hints say.

  /** mode.py, White to move: no move gives the fixed text; otherwise the
      hint describes the first move maximising the minimizing child search
      and ends with that value to two decimals. */
  lemma ModeHintWhite<P(!new)>(r: Rules<P>, p: P, depth: nat, roll: nat) returns (k: nat)
    requires WellFormed(r)
    requires depth >= 1
    ensures |r.legalMoves(p)| == 0 ==> ModeHintAsWritten(r, p, depth, White, roll) == Some(NoMove)
    ensures |r.legalMoves(p)| > 0 ==> k < |r.legalMoves(p)|
    ensures |r.legalMoves(p)| > 0 ==>
      var vs := ChildValues(r, p, depth, false);
      var m := r.legalMoves(p)[k];
      var origin := PieceAt(r.placement(p), m.from);
      && FirstMax(vs, k) && vs[k].Fin?
      && (!Truthy(m) ==> ModeHintAsWritten(r, p, depth, White, roll) == Some(NoMove))
      && (Truthy(m) && origin.None? ==> ModeHintAsWritten(r, p, depth, White, roll).None?)
      && (Truthy(m) && origin.Some? ==>
            ModeHintAsWritten(r, p, depth, White, roll)
            == Some(ChooseTemplate(KindHints(origin.value.kind), vs[k], roll) + " (Evaluation: " + FormatFixed2(vs[k].n) + ")"))
  {
    k := FindBestMoveWhite(r, p, depth);
    var ms := r.legalMoves(p);
    if |ms| > 0 {
      MinimaxFinite(r, r.play(p, ms[k]), depth - 1, false);
      DescribeResult(RootSearch(r, p, depth, WhitePlan), r.placement(p), roll, ModeStyle, ms[k]);
    }
  }


  /** white_hint.py: whatever the side to move, the hint describes the
      first move maximising the minimizing child search, carries no
      evaluation, and falls back to the fixed text when there is no move
      or its origin square is empty. */
  lemma WhiteHintSpec<P(!new)>(r: Rules<P>, p: P, depth: nat, roll: nat) returns (k: nat)
    requires WellFormed(r)
    requires depth >= 1
    ensures |r.legalMoves(p)| == 0 ==> WhiteHint(r, p, depth, roll) == NoMove
    ensures |r.legalMoves(p)| > 0 ==> k < |r.legalMoves(p)|
    ensures |r.legalMoves(p)| > 0 ==>
      var vs := ChildValues(r, p, depth, false);
      var m := r.legalMoves(p)[k];
      var origin := PieceAt(r.placement(p), m.from);
      && FirstMax(vs, k)
      && (!Truthy(m) || origin.None? ==> WhiteHint(r, p, depth, roll) == NoMove)
      && (Truthy(m) && origin.Some? ==>
            WhiteHint(r, p, depth, roll) == ChooseTemplate(KindHints(origin.value.kind), vs[k], roll))
  {
    k := FindBestMoveWhite(r, p, depth);
    var ms := r.legalMoves(p);
    if |ms| > 0 {
      MinimaxFinite(r, r.play(p, ms[k]), depth - 1, false);
      DescribeResult(RootSearch(r, p, depth, WhitePlan), r.placement(p), roll, WhiteHintStyle, ms[k]);
    }
  }


  /** mode.py, Black to move, as written: the hint describes the first move
      MAXIMISING the maximizing child search (the move best for White) and
      reports the negation of that value. */
  lemma ModeHintBlackAsWritten<P(!new)>(r: Rules<P>, p: P, depth: nat, roll: nat) returns (k: nat)
    requires WellFormed(r)
    requires depth >= 1
    ensures |r.legalMoves(p)| == 0 ==> ModeHintAsWritten(r, p, depth, Black, roll) == Some(NoMove)
    ensures |r.legalMoves(p)| > 0 ==> k < |r.legalMoves(p)|
    ensures |r.legalMoves(p)| > 0 ==>
      var vs := ChildValues(r, p, depth, true);
      var m := r.legalMoves(p)[k];
      var origin := PieceAt(r.placement(p), m.from);
      && FirstMax(vs, k) && vs[k].Fin?
      && (!Truthy(m) ==> ModeHintAsWritten(r, p, depth, Black, roll) == Some(NoMove))
      && (Truthy(m) && origin.None? ==> ModeHintAsWritten(r, p, depth, Black, roll).None?)
      && (Truthy(m) && origin.Some? ==>
            ModeHintAsWritten(r, p, depth, Black, roll)
            == Some(ChooseTemplate(KindHints(origin.value.kind), Fin(-vs[k].n), roll) + " (Evaluation: " + FormatFixed2(-vs[k].n) + ")"))
  {
    k := BlackHintMaximises(r, p, depth);
    var ms := r.legalMoves(p);
    var res := RootSearch(r, p, depth, BlackHintPlan);
    assert ModeHintAsWritten(r, p, depth, Black, roll) == Describe(res, r.placement(p), roll, ModeStyle);
    if |ms| > 0 {
      var vs := ChildValues(r, p, depth, true);
      assert vs[k] == Minimax(r, r.play(p, ms[k]), depth - 1, true);
      MinimaxFinite(r, r.play(p, ms[k]), depth - 1, true);
      assert Neg(vs[k]) == Fin(-vs[k].n);
      DescribeResult(res, r.placement(p), roll, ModeStyle, ms[k]);
    }
  }


  // ---------------------------------------------------------------------
  // The Black branch as evidently intended.

  /** Negate the child value (Black's point of view) and keep the MAXIMUM
      of the negations. */
  const CorrectedBlackHintPlan := RootPlan(true, true, false)

  /** mode.py's `get_hint_from_best_move` with the corrected Black branch. */
  function ModeHint<P>(r: Rules<P>, p: P, depth: nat, perspective: Color, roll: nat): Option<string>
    requires depth >= 1
  {
    Describe(RootSearch(r, p, depth, ModePlan(perspective, CorrectedBlackHintPlan)), r.placement(p), roll, ModeStyle)
  }

  /** Step by step, the corrected loop keeps the same move as the Black
      loop of `find_best_move` and the negation of its value. */
  lemma {:induction false} CorrectedLoopAgrees<P>(r: Rules<P>, p: P, ms: seq<Move>, depth: nat,
                                                 best: Option<Move>, bestValue: Score)
    requires depth >= 1
    ensures
      var black := RootLoop(r, p, ms, depth, BlackPlan, best, bestValue);
      RootLoop(r, p, ms, depth, CorrectedBlackHintPlan, best, Neg(bestValue)) == SearchResult(black.best, Neg(black.value))
    decreases |ms|
  {
    if |ms| > 0 {
      var raw := AlphaBeta(r, r.play(p, ms[0]), depth - 1, NegInf, PosInf, true);
      NegAntitone(raw, bestValue);
      NegAntitone(bestValue, raw);
      NegInvolutive(raw);
      NegInvolutive(bestValue);
      assert Improves(CorrectedBlackHintPlan, Neg(raw), Neg(bestValue)) <==> Improves(BlackPlan, raw, bestValue);
      CorrectedLoopAgrees(r, p, ms[1..], depth, Some(ms[0]), raw);
      CorrectedLoopAgrees(r, p, ms[1..], depth, best, bestValue);
    }
  }

  /** The corrected hint describes exactly the move `find_best_move`
      chooses for Black, and reports its value from Black's side. */
  lemma CorrectedBlackHintAgrees<P>(r: Rules<P>, p: P, depth: nat)
    requires depth >= 1
    ensures RootSearch(r, p, depth, CorrectedBlackHintPlan).best == FindBestMove(r, p, depth, Black)
    ensures RootSearch(r, p, depth, CorrectedBlackHintPlan).value == Neg(RootSearch(r, p, depth, BlackPlan).value)
  {
    CorrectedLoopAgrees(r, p, r.legalMoves(p), depth, None, PosInf);
  }

  /** mode.py, Black to move, corrected: the hint describes the first move
      minimising the maximizing child search and reports the negation of
      that value. */
  lemma ModeHintBlack<P(!new)>(r: Rules<P>, p: P, depth: nat, roll: nat) returns (k: nat)
    requires WellFormed(r)
    requires depth >= 1
    ensures |r.legalMoves(p)| == 0 ==> ModeHint(r, p, depth, Black, roll) == Some(NoMove)
    ensures |r.legalMoves(p)| > 0 ==> k < |r.legalMoves(p)|
    ensures |r.legalMoves(p)| > 0 ==>
      var vs := ChildValues(r, p, depth, true);
      var m := r.legalMoves(p)[k];
      var origin := PieceAt(r.placement(p), m.from);
      && FirstMin(vs, k) && vs[k].Fin?
      && (!Truthy(m) ==> ModeHint(r, p, depth, Black, roll) == Some(NoMove))
      && (Truthy(m) && origin.None? ==> ModeHint(r, p, depth, Black, roll).None?)
      && (Truthy(m) && origin.Some? ==>
            ModeHint(r, p, depth, Black, roll)
            == Some(ChooseTemplate(KindHints(origin.value.kind), Fin(-vs[k].n), roll) + " (Evaluation: " + FormatFixed2(-vs[k].n) + ")"))
  {
    k := FindBestMoveBlack(r, p, depth);
    var ms := r.legalMoves(p);
    CorrectedBlackHintAgrees(r, p, depth);
    if |ms| > 0 {
      var vs := ChildValues(r, p, depth, true);
      assert vs[k] == Minimax(r, r.play(p, ms[k]), depth - 1, true);
      MinimaxFinite(r, r.play(p, ms[k]), depth - 1, true);
      assert Neg(vs[k]) == Fin(-vs[k].n);
      DescribeResult(RootSearch(r, p, depth, CorrectedBlackHintPlan), r.placement(p), roll, ModeStyle, ms[k]);
    }
  }


  /** new.py's `run_black_hint` as evidently intended: after the side
      splice, describe (in white_hint.py's style) the move `find_best_move`
      chooses for Black, with the value from Black's side. As written it
      calls white_hint.py's `get_hint_from_best_move`, i.e. `WhiteHint`,
      which maximises White's evaluation over Black's moves. */
  function NewBlackHint<P>(r: Rules<P>, p: P, depth: nat, roll: nat): string
    requires depth >= 1
  {
    Describe(RootSearch(r, p, depth, CorrectedBlackHintPlan), r.placement(p), roll, WhiteHintStyle).value
  }

  /** The corrected new.py hint: no move gives the fixed text; otherwise it
      describes the first move minimising the maximizing child search, which
      is `find_best_move`'s Black move, indexed by the negation of its
      value; a null move or an empty origin gives the fixed text. */
  lemma NewBlackHintSpec<P(!new)>(r: Rules<P>, p: P, depth: nat, roll: nat) returns (k: nat)
    requires WellFormed(r)
    requires depth >= 1
    ensures |r.legalMoves(p)| == 0 ==> NewBlackHint(r, p, depth, roll) == NoMove
    ensures |r.legalMoves(p)| > 0 ==> k < |r.legalMoves(p)|
    ensures |r.legalMoves(p)| > 0 ==>
      var vs := ChildValues(r, p, depth, true);
      var m := r.legalMoves(p)[k];
      var origin := PieceAt(r.placement(p), m.from);
      && FirstMin(vs, k) && vs[k].Fin?
      && FindBestMove(r, p, depth, Black) == Some(m)
      && (!Truthy(m) || origin.None? ==> NewBlackHint(r, p, depth, roll) == NoMove)
      && (Truthy(m) && origin.Some? ==>
            NewBlackHint(r, p, depth, roll) == ChooseTemplate(KindHints(origin.value.kind), Fin(-vs[k].n), roll))
  {
    k := FindBestMoveBlack(r, p, depth);
    var ms := r.legalMoves(p);
    CorrectedBlackHintAgrees(r, p, depth);
    if |ms| > 0 {
      var vs := ChildValues(r, p, depth, true);
      assert vs[k] == Minimax(r, r.play(p, ms[k]), depth - 1, true);
      MinimaxFinite(r, r.play(p, ms[k]), depth - 1, true);
      assert Neg(vs[k]) == Fin(-vs[k].n);
      DescribeResult(RootSearch(r, p, depth, CorrectedBlackHintPlan), r.placement(p), roll, WhiteHintStyle, ms[k]);
    }
  }

  /** For White the corrected and the original hint coincide. */
  lemma ModeHintWhiteUnchanged<P>(r: Rules<P>, p: P, depth: nat, roll: nat)
    requires depth >= 1
    ensures ModeHint(r, p, depth, White, roll) == ModeHintAsWritten(r, p, depth, White, roll)
  {
  }
}
