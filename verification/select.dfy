/** The root move selectors: `find_best_move` (mode.py, Black_Best_Move.py)
    and the root loop of `get_hint_from_best_move` (mode.py, white_hint.py).
    All of them walk the legal root moves in the engine's order, search
    each child with the full window, and keep a strictly better value. */
module Select {
  import opened Wrappers
  import opened Score
  import opened Chess
  import opened Search

  /** How a root loop scores and compares children: the flag handed to the
      child search, whether the child's value is negated, and whether the
      running best is a minimum (initial +infinity, `<`) or a maximum
      (initial -infinity, `>`). */
  datatype RootPlan = RootPlan(childMaximizing: bool, negate: bool, minimise: bool)

  /** White to move: maximise over minimizing children. */
  const WhitePlan := RootPlan(false, false, false)
  /** Black to move in `find_best_move`: minimise over maximizing children. */
  const BlackPlan := RootPlan(true, false, true)
  /** Black to move in mode.py's `get_hint_from_best_move`: the child value
      is negated and the running minimum kept. */
  const BlackHintPlan := RootPlan(true, true, true)

  datatype SearchResult = SearchResult(best: Option<Move>, value: Score)

  function Initial(plan: RootPlan): Score
  {
    if plan.minimise then PosInf else NegInf
  }

  /** `v` replaces the running best `b` (strict comparison). */
  predicate Improves(plan: RootPlan, v: Score, b: Score)
  {
    if plan.minimise then Lt(v, b) else Lt(b, v)
  }

  /** `v` is at least as good as `w` for the plan. */
  predicate AtLeastAsGood(plan: RootPlan, v: Score, w: Score)
  {
    if plan.minimise then Le(v, w) else Le(w, v)
  }

  function RootLoop<P>(r: Rules<P>, p: P, ms: seq<Move>, depth: nat, plan: RootPlan,
                       best: Option<Move>, bestValue: Score): SearchResult
    requires depth >= 1
    decreases |ms|
  {
    if |ms| == 0 then SearchResult(best, bestValue)
    else
      var raw := AlphaBeta(r, r.play(p, ms[0]), depth - 1, NegInf, PosInf, plan.childMaximizing);
      var v := if plan.negate then Neg(raw) else raw;
      if Improves(plan, v, bestValue) then RootLoop(r, p, ms[1..], depth, plan, Some(ms[0]), v)
      else RootLoop(r, p, ms[1..], depth, plan, best, bestValue)
  }

  /** The root search; the window handed to every child is the full one and
      is never tightened between root moves. */
  function RootSearch<P>(r: Rules<P>, p: P, depth: nat, plan: RootPlan): SearchResult
    requires depth >= 1
  {
    RootLoop(r, p, r.legalMoves(p), depth, plan, None, Initial(plan))
  }

  /** `find_best_move(board, depth, perspective)` of mode.py. */
  function FindBestMove<P>(r: Rules<P>, p: P, depth: nat, perspective: Color): Option<Move>
    requires depth >= 1
  {
    RootSearch(r, p, depth, if perspective == White then WhitePlan else BlackPlan).best
  }

  /** `find_best_move(board, depth)` of Black_Best_Move.py. */
  function FindBestMoveForBlack<P>(r: Rules<P>, p: P, depth: nat): Option<Move>
    requires depth >= 1
  {
    RootSearch(r, p, depth, BlackPlan).best
  }

  // ---------------------------------------------------------------------
  // Specification of the root loop.

  /** The unpruned value a plan assigns to the child reached by `m`. */
  function ChildValue<P>(r: Rules<P>, p: P, m: Move, depth: nat, plan: RootPlan): Score
    requires depth >= 1
  {
    var raw := Minimax(r, r.play(p, m), depth - 1, plan.childMaximizing);
    if plan.negate then Neg(raw) else raw
  }

  /** Index `k` holds the first best value of `ms[..n]`. */
  ghost predicate FirstBest<P>(r: Rules<P>, p: P, ms: seq<Move>, n: nat, depth: nat, plan: RootPlan, k: nat)
    requires depth >= 1
    requires n <= |ms|
  {
    && k < n
    && (forall j | 0 <= j < n :: AtLeastAsGood(plan, ChildValue(r, p, ms[k], depth, plan), ChildValue(r, p, ms[j], depth, plan)))
    && (forall j | 0 <= j < k :: Improves(plan, ChildValue(r, p, ms[k], depth, plan), ChildValue(r, p, ms[j], depth, plan)))
  }

  lemma ChildValueFinite<P(!new)>(r: Rules<P>, p: P, m: Move, depth: nat, plan: RootPlan)
    requires WellFormed(r)
    requires depth >= 1
    ensures ChildValue(r, p, m, depth, plan).Fin?
    ensures ChildValue(r, p, m, depth, plan)
         == (var raw := AlphaBeta(r, r.play(p, m), depth - 1, NegInf, PosInf, plan.childMaximizing);
             if plan.negate then Neg(raw) else raw)
  {
    MinimaxFinite(r, r.play(p, m), depth - 1, plan.childMaximizing);
    AlphaBetaIsMinimax(r, r.play(p, m), depth - 1, plan.childMaximizing);
  }

  lemma ImprovesPast(plan: RootPlan, v: Score, b: Score, c: Score)
    requires Improves(plan, v, b)
    requires AtLeastAsGood(plan, b, c)
    ensures Improves(plan, v, c)
  {
    if plan.minimise {
      LeTrans(v, b, c);
      if v == c { LeAntisym(v, b); }
    } else {
      LeTrans(c, b, v);
      if v == c { LeAntisym(v, b); }
    }
  }

  lemma NotImproves(plan: RootPlan, v: Score, b: Score)
    requires !Improves(plan, v, b)
    ensures AtLeastAsGood(plan, b, v)
  {
    LeTotal(v, b);
  }

  lemma {:induction false} RootLoopFirstBest<P(!new)>(r: Rules<P>, p: P, ms: seq<Move>, i: nat, depth: nat,
                                                      plan: RootPlan, best: Option<Move>, bestValue: Score, k: nat)
    returns (k': nat)
    requires WellFormed(r)
    requires depth >= 1
    requires i <= |ms|
    requires i == 0 ==> best == None && bestValue == Initial(plan)
    requires i > 0 ==> FirstBest(r, p, ms, i, depth, plan, k) && best == Some(ms[k])
                       && bestValue == ChildValue(r, p, ms[k], depth, plan)
    ensures |ms| > 0 ==> FirstBest(r, p, ms, |ms|, depth, plan, k')
    ensures |ms| > 0 ==> RootLoop(r, p, ms[i..], depth, plan, best, bestValue)
                         == SearchResult(Some(ms[k']), ChildValue(r, p, ms[k'], depth, plan))
    ensures |ms| == 0 ==> RootLoop(r, p, ms[i..], depth, plan, best, bestValue) == SearchResult(None, Initial(plan))
    decreases |ms| - i
  {
    if i == |ms| {
      k' := k;
    } else {
      var v := ChildValue(r, p, ms[i], depth, plan);
      ChildValueFinite(r, p, ms[i], depth, plan);
      assert ms[i..][1..] == ms[i + 1..];
      if Improves(plan, v, bestValue) {
        if i > 0 {
          forall j | 0 <= j < i
            ensures Improves(plan, v, ChildValue(r, p, ms[j], depth, plan))
          {
            ImprovesPast(plan, v, bestValue, ChildValue(r, p, ms[j], depth, plan));
          }
        }
        LeTotal(v, v);
        k' := RootLoopFirstBest(r, p, ms, i + 1, depth, plan, Some(ms[i]), v, i);
      } else {
        assert i > 0;
        NotImproves(plan, v, bestValue);
        k' := RootLoopFirstBest(r, p, ms, i + 1, depth, plan, best, bestValue, k);
      }
    }
  }

  /** The root search returns no move exactly when there is no legal root
      move; otherwise the first legal move whose value is best, with that
      value. */
  lemma RootSearchFirstBest<P(!new)>(r: Rules<P>, p: P, depth: nat, plan: RootPlan) returns (k: nat)
    requires WellFormed(r)
    requires depth >= 1
    ensures RootSearch(r, p, depth, plan).best.None? <==> |r.legalMoves(p)| == 0
    ensures |r.legalMoves(p)| > 0 ==>
              && FirstBest(r, p, r.legalMoves(p), |r.legalMoves(p)|, depth, plan, k)
              && RootSearch(r, p, depth, plan)
                 == SearchResult(Some(r.legalMoves(p)[k]), ChildValue(r, p, r.legalMoves(p)[k], depth, plan))
  {
    var ms := r.legalMoves(p);
    assert ms[0..] == ms;
    k := RootLoopFirstBest(r, p, ms, 0, depth, plan, None, Initial(plan), 0);
  }

  // ---------------------------------------------------------------------
  // The selectors of each file, as first-maximiser / first-minimiser.

  /** Unpruned values of the children of `p`, searched to `depth - 1`. */
  function ChildValues<P>(r: Rules<P>, p: P, depth: nat, childMaximizing: bool): (vs: seq<Score>)
    requires depth >= 1
    ensures |vs| == |r.legalMoves(p)|
  {
    var ms := r.legalMoves(p);
    seq(|ms|, j requires 0 <= j < |ms| => Minimax(r, r.play(p, ms[j]), depth - 1, childMaximizing))
  }

  /** `k` is the first index of a maximum of `vs`. */
  ghost predicate FirstMax(vs: seq<Score>, k: nat)
  {
    && k < |vs|
    && (forall j | 0 <= j < |vs| :: Le(vs[j], vs[k]))
    && (forall j | 0 <= j < k :: Lt(vs[j], vs[k]))
  }

  /** `k` is the first index of a minimum of `vs`. */
  ghost predicate FirstMin(vs: seq<Score>, k: nat)
  {
    && k < |vs|
    && (forall j | 0 <= j < |vs| :: Le(vs[k], vs[j]))
    && (forall j | 0 <= j < k :: Lt(vs[k], vs[j]))
  }

  /** White's selector: the first legal move that maximises the value of
      the minimizing child search. */
  lemma FindBestMoveWhite<P(!new)>(r: Rules<P>, p: P, depth: nat) returns (k: nat)
    requires WellFormed(r)
    requires depth >= 1
    ensures FindBestMove(r, p, depth, White).None? <==> |r.legalMoves(p)| == 0
    ensures |r.legalMoves(p)| > 0 ==>
              && FirstMax(ChildValues(r, p, depth, false), k)
              && FindBestMove(r, p, depth, White) == Some(r.legalMoves(p)[k])
              && RootSearch(r, p, depth, WhitePlan) == SearchResult(Some(r.legalMoves(p)[k]), ChildValues(r, p, depth, false)[k])
  {
    k := RootSearchFirstBest(r, p, depth, WhitePlan);
  }

  /** Black's selector in mode.py: the first legal move that minimises the
      value of the maximizing child search. */
  lemma FindBestMoveBlack<P(!new)>(r: Rules<P>, p: P, depth: nat) returns (k: nat)
    requires WellFormed(r)
    requires depth >= 1
    ensures FindBestMove(r, p, depth, Black).None? <==> |r.legalMoves(p)| == 0
    ensures |r.legalMoves(p)| > 0 ==>
              && FirstMin(ChildValues(r, p, depth, true), k)
              && FindBestMove(r, p, depth, Black) == Some(r.legalMoves(p)[k])
              && RootSearch(r, p, depth, BlackPlan) == SearchResult(Some(r.legalMoves(p)[k]), ChildValues(r, p, depth, true)[k])
  {
    k := RootSearchFirstBest(r, p, depth, BlackPlan);
  }

  /** Black_Best_Move.py's selector is mode.py's Black branch. */
  lemma FindBestMoveForBlackMinimises<P(!new)>(r: Rules<P>, p: P, depth: nat) returns (k: nat)
    requires WellFormed(r)
    requires depth >= 1
    ensures FindBestMoveForBlack(r, p, depth) == FindBestMove(r, p, depth, Black)
    ensures FindBestMoveForBlack(r, p, depth).None? <==> |r.legalMoves(p)| == 0
    ensures |r.legalMoves(p)| > 0 ==>
              FirstMin(ChildValues(r, p, depth, true), k) && FindBestMoveForBlack(r, p, depth) == Some(r.legalMoves(p)[k])
  {
    k := FindBestMoveBlack(r, p, depth);
  }

  /** mode.py's Black hint loop negates the child value and keeps the
      minimum of the negations: it therefore selects the first move that
      MAXIMISES the child's minimax value (the opposite of
      `find_best_move`'s Black branch) and reports the negated value. */
  lemma BlackHintMaximises<P(!new)>(r: Rules<P>, p: P, depth: nat) returns (k: nat)
    requires WellFormed(r)
    requires depth >= 1
    ensures RootSearch(r, p, depth, BlackHintPlan).best.None? <==> |r.legalMoves(p)| == 0
    ensures |r.legalMoves(p)| > 0 ==>
              && FirstMax(ChildValues(r, p, depth, true), k)
              && RootSearch(r, p, depth, BlackHintPlan)
                 == SearchResult(Some(r.legalMoves(p)[k]), Neg(ChildValues(r, p, depth, true)[k]))
  {
    k := RootSearchFirstBest(r, p, depth, BlackHintPlan);
    var ms := r.legalMoves(p);
    if |ms| > 0 {
      var vs := ChildValues(r, p, depth, true);
      forall j | 0 <= j < |ms|
        ensures Le(vs[j], vs[k])
        ensures j < k ==> Lt(vs[j], vs[k])
      {
        NegAntitone(vs[j], vs[k]);
        NegAntitone(vs[k], vs[j]);
        NegInvolutive(vs[j]);
        NegInvolutive(vs[k]);
      }
    }
  }
}
