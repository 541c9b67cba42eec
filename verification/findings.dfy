/** A concrete position on which mode.py's Black hint and new.py's Black
    hint, as written, name a different move from `find_best_move` for
    Black. */
module Findings {
  import opened Wrappers
  import opened Score
  import opened Chess
  import opened Search
  import opened Select
  import opened Hint

  lemma {:induction false} SquareSumAppend(a: seq<Option<Piece>>, b: seq<Option<Piece>>)
    ensures SquareSum(a + b) == SquareSum(a) + SquareSum(b)
  {
    if |a| > 0 {
      assert (a + b)[1..] == a[1..] + b;
      SquareSumAppend(a[1..], b);
    } else {
      assert a + b == b;
    }
  }

  /** A board whose only piece is a white pawn on a2 (grid row 6). */
  function PawnOnA2(): (b: Board)
    ensures b[6][0] == Some(Piece(White, Pawn))
    ensures forall i, j | 0 <= i < 8 && 0 <= j < 8 && (i, j) != (6, 0) :: b[i][j].None?
  {
    var e := EmptyBoard();
    e[6 := e[6][0 := Some(Piece(White, Pawn))]]
  }

  lemma EmptyBoardLevel()
    ensures Evaluate(EmptyBoard()) == 0
  {
    var b := EmptyBoard();
    forall i | 0 <= i < 64
      ensures Cells(b)[i].None?
    {
      CellsIndex(b, i);
    }
    OnlyKingsIsLevel(b);
  }

  lemma PawnOnA2Scores()
    ensures Evaluate(PawnOnA2()) == 1
  {
    var b := PawnOnA2();
    var cs := Cells(b);
    forall i | 0 <= i < 64
      ensures cs[i] == b[i / 8][i % 8]
    {
      CellsIndex(b, i);
    }
    var before, after := cs[..48], cs[49..];
    assert cs == before + [cs[48]] + after;
    assert OnlyKings(before);
    assert OnlyKings(after) by {
      forall i | 0 <= i < |after| ensures after[i] == cs[49 + i] { }
    }
    SquareSumOnlyKings(before);
    SquareSumOnlyKings(after);
    SquareSumAppend(before + [cs[48]], after);
    SquareSumAppend(before, [cs[48]]);
    EvaluateIsSquareSum(cs);
  }

  const PushA := Move(8, 16, None)
  const PushB := Move(9, 17, None)

  function TwoMovesPlacement(p: nat): Board
  {
    if p == 1 then PawnOnA2() else EmptyBoard()
  }

  /** Position 0 has two moves: `PushA` leads to a position White leads by
      a pawn, `PushB` to a level one. Both children are terminal. */
  function TwoMoves(): Rules<nat>
  {
    Rules(
      p => if p == 0 then [PushA, PushB] else [],
      (p, m) => if m == PushA then 1 else 2,
      p => p != 0,
      TwoMovesPlacement)
  }

  lemma TwoMovesWellFormed()
    ensures WellFormed(TwoMoves())
  {
  }

  /** Any position with exactly two legal moves, both ending the game, the
      first leaving White a pawn up and the second level. */
  predicate TwoTerminalChildren<P>(r: Rules<P>, p: P, a: Move, b: Move)
  {
    && r.legalMoves(p) == [a, b]
    && r.isGameOver(r.play(p, a)) && StaticEval(r, r.play(p, a)) == 1
    && r.isGameOver(r.play(p, b)) && StaticEval(r, r.play(p, b)) == 0
  }

  /** The root loop after the first move. */
  lemma FirstStep<P>(r: Rules<P>, p: P, a: Move, b: Move, plan: RootPlan)
    requires TwoTerminalChildren(r, p, a, b)
    ensures
      var v := if plan.negate then Fin(-1) else Fin(1);
      var first := if Improves(plan, v, Initial(plan)) then SearchResult(Some(a), v) else SearchResult(None, Initial(plan));
      RootSearch(r, p, 1, plan) == RootLoop(r, p, [b], 1, plan, first.best, first.value)
  {
    assert [a, b][1..] == [b];
  }

  /** The root loop over the second move. */
  lemma SecondStep<P>(r: Rules<P>, p: P, a: Move, b: Move, plan: RootPlan, best: Option<Move>, bestValue: Score)
    requires TwoTerminalChildren(r, p, a, b)
    ensures RootLoop(r, p, [b], 1, plan, best, bestValue)
         == if Improves(plan, Fin(0), bestValue) then SearchResult(Some(b), Fin(0)) else SearchResult(best, bestValue)
  {
    assert [b][1..] == [];
  }

  /** The whole root loop, for any plan whose children are maximizing. */
  lemma RootOutcome<P>(r: Rules<P>, p: P, a: Move, b: Move, plan: RootPlan)
    requires TwoTerminalChildren(r, p, a, b)
    ensures
      var va := if plan.negate then Fin(-1) else Fin(1);
      var first := if Improves(plan, va, Initial(plan)) then SearchResult(Some(a), va) else SearchResult(None, Initial(plan));
      RootSearch(r, p, 1, plan) == if Improves(plan, Fin(0), first.value) then SearchResult(Some(b), Fin(0)) else first
  {
    var va := if plan.negate then Fin(-1) else Fin(1);
    var first := if Improves(plan, va, Initial(plan)) then SearchResult(Some(a), va) else SearchResult(None, Initial(plan));
    FirstStep(r, p, a, b, plan);
    SecondStep(r, p, a, b, plan, first.best, first.value);
  }

  /** On every such position, Black's `find_best_move` picks the level
      line. */
  lemma BlackPicksLevelLine<P>(r: Rules<P>, p: P, a: Move, b: Move)
    requires TwoTerminalChildren(r, p, a, b)
    ensures FindBestMove(r, p, 1, Black) == Some(b)
  {
    RootOutcome(r, p, a, b, BlackPlan);
  }

  /** The Black hint as written picks the line that leaves White a pawn up
      and reports it as -1.00. */
  lemma BlackHintPicksWhitesMove<P>(r: Rules<P>, p: P, a: Move, b: Move)
    requires TwoTerminalChildren(r, p, a, b)
    ensures RootSearch(r, p, 1, BlackHintPlan) == SearchResult(Some(a), Fin(-1))
  {
    RootOutcome(r, p, a, b, BlackHintPlan);
  }

  /** The corrected hint picks the level line, like `find_best_move`. */
  lemma CorrectedHintPicksLevelLine<P>(r: Rules<P>, p: P, a: Move, b: Move)
    requires TwoTerminalChildren(r, p, a, b)
    ensures RootSearch(r, p, 1, CorrectedBlackHintPlan) == SearchResult(Some(b), Fin(0))
  {
    RootOutcome(r, p, a, b, CorrectedBlackHintPlan);
  }

  /** A concrete instance: two pawn pushes from the start position 0. */
  lemma BlackHintCounterexample()
    ensures WellFormed(TwoMoves())
    ensures FindBestMove(TwoMoves(), 0, 1, Black) == Some(PushB)
    ensures RootSearch(TwoMoves(), 0, 1, BlackHintPlan) == SearchResult(Some(PushA), Fin(-1))
  {
    TwoMovesWellFormed();
    TwoMovesShape();
    BlackPicksLevelLine(TwoMoves(), 0, PushA, PushB);
    BlackHintPicksWhitesMove(TwoMoves(), 0, PushA, PushB);
  }

  /** new.py's Black hint as written: white_hint.py's root loop on the
      Black-to-move position keeps the move that leaves White a pawn up,
      while `find_best_move` for Black keeps the level line. */
  lemma NewBlackHintCounterexample()
    ensures WellFormed(TwoMoves())
    ensures FindBestMove(TwoMoves(), 0, 1, Black) == Some(PushB)
    ensures RootSearch(TwoMoves(), 0, 1, WhitePlan) == SearchResult(Some(PushA), Fin(1))
  {
    TwoMovesWellFormed();
    TwoMovesShape();
    BlackPicksLevelLine(TwoMoves(), 0, PushA, PushB);
    RootOutcome(TwoMoves(), 0, PushA, PushB, WhitePlan);
  }

  /** The corrected new.py hint describes the level line, like
      `find_best_move` for Black, valued 0 from Black's side. */
  lemma NewBlackHintPicksLevelLine()
    ensures RootSearch(TwoMoves(), 0, 1, CorrectedBlackHintPlan) == SearchResult(Some(PushB), Fin(0))
    ensures FindBestMove(TwoMoves(), 0, 1, Black) == Some(PushB)
  {
    TwoMovesShape();
    CorrectedHintPicksLevelLine(TwoMoves(), 0, PushA, PushB);
    BlackPicksLevelLine(TwoMoves(), 0, PushA, PushB);
  }

  lemma TwoMovesShape()
    ensures TwoTerminalChildren(TwoMoves(), 0, PushA, PushB)
  {
    var r := TwoMoves();
    assert r.play(0, PushA) == 1 && r.play(0, PushB) == 2;
    assert r.placement(1) == PawnOnA2();
    PawnOnA2Scores();
    assert r.placement(2) == EmptyBoard();
    EmptyBoardLevel();
  }
}
