/** Pieces, the 8x8 board grid and the material evaluation. */
module Chess {
  import opened Wrappers

  datatype Color = White | Black

  datatype Kind = Pawn | Knight | Bishop | Rook | Queen | King

  datatype Piece = Piece(color: Color, kind: Kind)

  function Opponent(c: Color): Color
  {
    if c == White then Black else White
  }

  /** A square index as the rules engine numbers squares: a1 = 0, b1 = 1, ...,
      h8 = 63. */
  type Square = x: int | 0 <= x < 64

  function SquareFile(sq: Square): int
  {
    sq % 8
  }

  function SquareRank(sq: Square): int
  {
    sq / 8
  }

  /** The piece on a square: rank r lives in grid row 7 - r. */
  function PieceAt(b: Board, sq: Square): Option<Piece>
  {
    b[7 - SquareRank(sq)][SquareFile(sq)]
  }

  /** A move as produced by the rules engine; the core only passes it on. */
  datatype Move = Move(from: Square, to: Square, promotion: Option<Kind>)

  predicate IsGrid(b: seq<seq<Option<Piece>>>)
  {
    |b| == 8 && forall i | 0 <= i < 8 :: |b[i]| == 8
  }

  /** The assembler's grid: row 0 is rank 8, column 0 is file a. */
  type Board = b: seq<seq<Option<Piece>>> | IsGrid(b)
    witness seq(8, _ => seq(8, _ => None))

  /** The grid `generate_fen` starts from: every cell empty. */
  function EmptyBoard(): (b: Board)
    ensures forall i, j | 0 <= i < 8 && 0 <= j < 8 :: b[i][j].None?
  {
    seq(8, _ => seq(8, _ => None))
  }

  /** Material value of each piece kind. */
  function Value(k: Kind): int
  {
    match k
    case Pawn => 1
    case Knight => 3
    case Bishop => 3
    case Rook => 5
    case Queen => 9
    case King => 0
  }

  /** The 64 cells of a board, row by row. */
  function Cells(b: seq<seq<Option<Piece>>>): (cs: seq<Option<Piece>>)
    ensures (forall r | 0 <= r < |b| :: |b[r]| == 8) ==> |cs| == 8 * |b|
  {
    if |b| == 0 then [] else b[0] + Cells(b[1..])
  }

  lemma {:induction false} CellsIndex(b: seq<seq<Option<Piece>>>, i: nat)
    requires forall r | 0 <= r < |b| :: |b[r]| == 8
    requires i < 8 * |b|
    ensures Cells(b)[i] == b[i / 8][i % 8]
  {
    if i >= 8 {
      CellsIndex(b[1..], i - 8);
    }
  }

  /** Number of cells holding exactly piece `p`. */
  function Count(cs: seq<Option<Piece>>, p: Piece): nat
  {
    if |cs| == 0 then 0
    else (if cs[0] == Some(p) then 1 else 0) + Count(cs[1..], p)
  }

  /** White pieces of kind `k` minus black pieces of kind `k`. */
  function Balance(cs: seq<Option<Piece>>, k: Kind): int
  {
    Count(cs, Piece(White, k)) - Count(cs, Piece(Black, k))
  }

  /** The evaluation as the original computes it: for each kind, its value
      times that kind's balance. */
  function EvaluateCells(cs: seq<Option<Piece>>): int
  {
    Value(Pawn) * Balance(cs, Pawn)
    + Value(Knight) * Balance(cs, Knight)
    + Value(Bishop) * Balance(cs, Bishop)
    + Value(Rook) * Balance(cs, Rook)
    + Value(Queen) * Balance(cs, Queen)
    + Value(King) * Balance(cs, King)
  }

  function Evaluate(b: Board): int
  {
    EvaluateCells(Cells(b))
  }

  /** Contribution of one square, from White's point of view. */
  function SignedValue(c: Option<Piece>): int
  {
    match c
    case None => 0
    case Some(p) => if p.color == White then Value(p.kind) else -Value(p.kind)
  }

  /** Independent reference: the sum of every square's contribution. */
  function SquareSum(cs: seq<Option<Piece>>): int
  {
    if |cs| == 0 then 0 else SignedValue(cs[0]) + SquareSum(cs[1..])
  }

  /** Counting per kind and colour agrees with summing per square. */
  lemma {:induction false} EvaluateIsSquareSum(cs: seq<Option<Piece>>)
    ensures EvaluateCells(cs) == SquareSum(cs)
  {
    if |cs| > 0 {
      EvaluateStep(cs);
      EvaluateIsSquareSum(cs[1..]);
    }
  }

  /** Balance contributed by a single square. */
  function Delta(c: Option<Piece>, k: Kind): int
  {
    match c
    case None => 0
    case Some(p) => if p.kind != k then 0 else if p.color == White then 1 else -1
  }

  lemma BalanceStep(cs: seq<Option<Piece>>, k: Kind)
    requires |cs| > 0
    ensures Balance(cs, k) == Delta(cs[0], k) + Balance(cs[1..], k)
  {
  }

  lemma EvaluateStep(cs: seq<Option<Piece>>)
    requires |cs| > 0
    ensures EvaluateCells(cs) == SignedValue(cs[0]) + EvaluateCells(cs[1..])
  {
    BalanceStep(cs, Pawn);
    BalanceStep(cs, Knight);
    BalanceStep(cs, Bishop);
    BalanceStep(cs, Rook);
    BalanceStep(cs, Queen);
    BalanceStep(cs, King);
  }

  function SwapColor(c: Option<Piece>): Option<Piece>
  {
    match c
    case None => None
    case Some(p) => Some(Piece(Opponent(p.color), p.kind))
  }

  function SwapColors(b: Board): (r: Board)
    ensures forall i, j | 0 <= i < 8 && 0 <= j < 8 :: r[i][j] == SwapColor(b[i][j])
  {
    seq(8, i requires 0 <= i < 8 => seq(8, j requires 0 <= j < 8 => SwapColor(b[i][j])))
  }

  lemma {:induction false} SquareSumSwap(cs: seq<Option<Piece>>)
    ensures SquareSum(seq(|cs|, i requires 0 <= i < |cs| => SwapColor(cs[i]))) == -SquareSum(cs)
  {
    if |cs| > 0 {
      var sw := seq(|cs|, i requires 0 <= i < |cs| => SwapColor(cs[i]));
      var rest := cs[1..];
      SquareSumSwap(rest);
      assert sw[1..] == seq(|rest|, i requires 0 <= i < |rest| => SwapColor(rest[i]));
    }
  }

  lemma {:induction false} CellsSwap(b: Board)
    ensures Cells(SwapColors(b)) == seq(64, i requires 0 <= i < 64 => SwapColor(Cells(b)[i]))
  {
    var cs := Cells(b);
    var sw := Cells(SwapColors(b));
    forall i | 0 <= i < 64
      ensures sw[i] == SwapColor(cs[i])
    {
      CellsIndex(b, i);
      CellsIndex(SwapColors(b), i);
    }
  }

  /** Swapping the colour of every piece negates the evaluation. */
  lemma ColorSwapNegates(b: Board)
    ensures Evaluate(SwapColors(b)) == -Evaluate(b)
  {
    CellsSwap(b);
    EvaluateIsSquareSum(Cells(b));
    EvaluateIsSquareSum(Cells(SwapColors(b)));
    SquareSumSwap(Cells(b));
  }

  predicate OnlyKings(cs: seq<Option<Piece>>)
  {
    forall i | 0 <= i < |cs| :: cs[i].None? || cs[i].value.kind == King
  }

  lemma {:induction false} SquareSumOnlyKings(cs: seq<Option<Piece>>)
    requires OnlyKings(cs)
    ensures SquareSum(cs) == 0
  {
    if |cs| > 0 {
      assert OnlyKings(cs[1..]) by {
        forall i | 0 <= i < |cs| - 1 ensures cs[1..][i] == cs[i + 1] { }
      }
      SquareSumOnlyKings(cs[1..]);
    }
  }

  /** A board holding nothing but kings is materially level. */
  lemma OnlyKingsIsLevel(b: Board)
    requires OnlyKings(Cells(b))
    ensures Evaluate(b) == 0
  {
    EvaluateIsSquareSum(Cells(b));
    SquareSumOnlyKings(Cells(b));
  }
}
