/** Material evaluation lifted to positions, plain minimax, and the
    fail-soft alpha-beta search of `minimax` in mode.py, white_hint.py and
    Black_Best_Move.py (the three copies are identical). */
module Search {
  import opened Wrappers
  import opened Score
  import opened Chess

  /** The rules engine, seen only through these four operations. Moves are
      applied functionally, so the push/pop discipline of the original
      holds by construction. */
  datatype Rules<!P> = Rules(
    legalMoves: P -> seq<Move>,
    play: (P, Move) -> P,
    isGameOver: P -> bool,
    placement: P -> Board)

  /** What the rules engine guarantees: a position that is not over has a
      legal move (stalemate and checkmate are game over). */
  ghost predicate WellFormed<P(!new)>(r: Rules<P>)
  {
    forall p :: !r.isGameOver(p) ==> |r.legalMoves(p)| > 0
  }

  function StaticEval<P>(r: Rules<P>, p: P): int
  {
    Evaluate(r.placement(p))
  }

  /** Reference: exhaustive minimax without pruning. */
  function Minimax<P>(r: Rules<P>, p: P, depth: nat, maximizing: bool): Score
    decreases depth, 1, 0
  {
    if depth == 0 || r.isGameOver(p) then Fin(StaticEval(r, p))
    else FoldChildren(r, p, r.legalMoves(p), depth, maximizing, if maximizing then NegInf else PosInf)
  }

  /** Running maximum (or minimum) of the children reached by `ms`. */
  function FoldChildren<P>(r: Rules<P>, p: P, ms: seq<Move>, depth: nat, maximizing: bool, acc: Score): Score
    requires depth >= 1
    decreases depth, 0, |ms|
  {
    if |ms| == 0 then acc
    else
      var v := Minimax(r, r.play(p, ms[0]), depth - 1, !maximizing);
      FoldChildren(r, p, ms[1..], depth, maximizing, if maximizing then Max(acc, v) else Min(acc, v))
  }

  /** `minimax(board, depth, alpha, beta, is_maximizing_player)`. */
  function AlphaBeta<P>(r: Rules<P>, p: P, depth: nat, alpha: Score, beta: Score, maximizing: bool): (v: Score)
    ensures depth == 0 || r.isGameOver(p) ==> v == Fin(StaticEval(r, p))
    decreases depth, 1, 0
  {
    if depth == 0 || r.isGameOver(p) then Fin(StaticEval(r, p))
    else if maximizing then MaxLoop(r, p, r.legalMoves(p), depth, alpha, beta, NegInf)
    else MinLoop(r, p, r.legalMoves(p), depth, alpha, beta, PosInf)
  }

  /** The maximizing loop: raise alpha, stop once beta <= alpha. */
  function MaxLoop<P>(r: Rules<P>, p: P, ms: seq<Move>, depth: nat, alpha: Score, beta: Score, best: Score): Score
    requires depth >= 1
    decreases depth, 0, |ms|
  {
    if |ms| == 0 then best
    else
      var v := AlphaBeta(r, r.play(p, ms[0]), depth - 1, alpha, beta, false);
      var best' := Max(best, v);
      var alpha' := Max(alpha, v);
      if Le(beta, alpha') then best'
      else MaxLoop(r, p, ms[1..], depth, alpha', beta, best')
  }

  /** The minimizing loop: lower beta, stop once beta <= alpha. */
  function MinLoop<P>(r: Rules<P>, p: P, ms: seq<Move>, depth: nat, alpha: Score, beta: Score, best: Score): Score
    requires depth >= 1
    decreases depth, 0, |ms|
  {
    if |ms| == 0 then best
    else
      var v := AlphaBeta(r, r.play(p, ms[0]), depth - 1, alpha, beta, true);
      var best' := Min(best, v);
      var beta' := Min(beta, v);
      if Le(beta', alpha) then best'
      else MinLoop(r, p, ms[1..], depth, alpha, beta', best')
  }

  // ---------------------------------------------------------------------
  // Pruning does not change the value.

  lemma {:induction false} FoldMaxGrows<P>(r: Rules<P>, p: P, ms: seq<Move>, depth: nat, acc: Score)
    requires depth >= 1
    ensures Le(acc, FoldChildren(r, p, ms, depth, true, acc))
    decreases |ms|
  {
    if |ms| > 0 {
      var v := Minimax(r, r.play(p, ms[0]), depth - 1, false);
      FoldMaxGrows(r, p, ms[1..], depth, Max(acc, v));
      LeTrans(acc, Max(acc, v), FoldChildren(r, p, ms, depth, true, acc));
    }
  }

  lemma {:induction false} FoldMinShrinks<P>(r: Rules<P>, p: P, ms: seq<Move>, depth: nat, acc: Score)
    requires depth >= 1
    ensures Le(FoldChildren(r, p, ms, depth, false, acc), acc)
    decreases |ms|
  {
    if |ms| > 0 {
      var v := Minimax(r, r.play(p, ms[0]), depth - 1, true);
      FoldMinShrinks(r, p, ms[1..], depth, Min(acc, v));
      LeTrans(FoldChildren(r, p, ms, depth, false, acc), Min(acc, v), acc);
    }
  }

  /** Within a non-empty window, the pruned search and exhaustive minimax
      agree once both are clamped into the window. */
  lemma {:induction false} AlphaBetaClamped<P>(r: Rules<P>, p: P, depth: nat, alpha: Score, beta: Score, maximizing: bool)
    requires Lt(alpha, beta)
    ensures Clamp(AlphaBeta(r, p, depth, alpha, beta, maximizing), alpha, beta)
         == Clamp(Minimax(r, p, depth, maximizing), alpha, beta)
    decreases depth, 1, 0
  {
    if depth == 0 || r.isGameOver(p) {
    } else if maximizing {
      MaxLoopClamped(r, p, r.legalMoves(p), depth, alpha, alpha, beta, NegInf, NegInf);
    } else {
      MinLoopClamped(r, p, r.legalMoves(p), depth, alpha, beta, beta, PosInf, PosInf);
    }
  }

  lemma {:induction false} MaxLoopClamped<P>(r: Rules<P>, p: P, ms: seq<Move>, depth: nat,
                                             alpha0: Score, alpha: Score, beta: Score, best: Score, acc: Score)
    requires depth >= 1
    requires alpha == Max(alpha0, best)
    requires Lt(alpha, beta)
    requires Clamp(best, alpha0, beta) == Clamp(acc, alpha0, beta)
    ensures Clamp(MaxLoop(r, p, ms, depth, alpha, beta, best), alpha0, beta)
         == Clamp(FoldChildren(r, p, ms, depth, true, acc), alpha0, beta)
    decreases depth, 0, |ms|
  {
    if |ms| > 0 {
      var child := r.play(p, ms[0]);
      var v := AlphaBeta(r, child, depth - 1, alpha, beta, false);
      var w := Minimax(r, child, depth - 1, false);
      AlphaBetaClamped(r, child, depth - 1, alpha, beta, false);
      var best' := Max(best, v);
      var alpha' := Max(alpha, v);
      var acc' := Max(acc, w);
      MaxStep(alpha0, alpha, beta, best, acc, v, w);
      if Le(beta, alpha') {
        FoldMaxGrows(r, p, ms[1..], depth, acc');
        ClampAbove(alpha0, beta, best', acc', FoldChildren(r, p, ms[1..], depth, true, acc'));
      } else {
        MaxLoopClamped(r, p, ms[1..], depth, alpha0, alpha', beta, best', acc');
      }
    }
  }

  lemma {:induction false} MinLoopClamped<P>(r: Rules<P>, p: P, ms: seq<Move>, depth: nat,
                                             alpha: Score, beta0: Score, beta: Score, best: Score, acc: Score)
    requires depth >= 1
    requires beta == Min(beta0, best)
    requires Lt(alpha, beta)
    requires Clamp(best, alpha, beta0) == Clamp(acc, alpha, beta0)
    ensures Clamp(MinLoop(r, p, ms, depth, alpha, beta, best), alpha, beta0)
         == Clamp(FoldChildren(r, p, ms, depth, false, acc), alpha, beta0)
    decreases depth, 0, |ms|
  {
    if |ms| > 0 {
      var child := r.play(p, ms[0]);
      var v := AlphaBeta(r, child, depth - 1, alpha, beta, true);
      var w := Minimax(r, child, depth - 1, true);
      AlphaBetaClamped(r, child, depth - 1, alpha, beta, true);
      var best' := Min(best, v);
      var beta' := Min(beta, v);
      var acc' := Min(acc, w);
      MinStep(alpha, beta0, beta, best, acc, v, w);
      if Le(beta', alpha) {
        FoldMinShrinks(r, p, ms[1..], depth, acc');
        ClampBelow(alpha, beta0, best', acc', FoldChildren(r, p, ms[1..], depth, false, acc'));
      } else {
        MinLoopClamped(r, p, ms[1..], depth, alpha, beta0, beta', best', acc');
      }
    }
  }

  /** With the full window the pruned search returns the exhaustive
      minimax value: the root selectors always call it this way. */
  lemma AlphaBetaIsMinimax<P>(r: Rules<P>, p: P, depth: nat, maximizing: bool)
    ensures AlphaBeta(r, p, depth, NegInf, PosInf, maximizing) == Minimax(r, p, depth, maximizing)
  {
    AlphaBetaClamped(r, p, depth, NegInf, PosInf, maximizing);
    ClampFull(AlphaBeta(r, p, depth, NegInf, PosInf, maximizing));
    ClampFull(Minimax(r, p, depth, maximizing));
  }

  // ---------------------------------------------------------------------
  // The value is always a finite material score.

  lemma {:induction false} MinimaxFinite<P(!new)>(r: Rules<P>, p: P, depth: nat, maximizing: bool)
    requires WellFormed(r)
    ensures Minimax(r, p, depth, maximizing).Fin?
    decreases depth, 1, 0
  {
    if depth > 0 && !r.isGameOver(p) {
      FoldFinite(r, p, r.legalMoves(p), depth, maximizing, if maximizing then NegInf else PosInf);
    }
  }

  lemma {:induction false} FoldFinite<P(!new)>(r: Rules<P>, p: P, ms: seq<Move>, depth: nat, maximizing: bool, acc: Score)
    requires WellFormed(r)
    requires depth >= 1
    requires |ms| > 0 || acc.Fin?
    requires maximizing ==> acc != PosInf
    requires !maximizing ==> acc != NegInf
    ensures FoldChildren(r, p, ms, depth, maximizing, acc).Fin?
    decreases depth, 0, |ms|
  {
    if |ms| > 0 {
      var v := Minimax(r, r.play(p, ms[0]), depth - 1, !maximizing);
      MinimaxFinite(r, r.play(p, ms[0]), depth - 1, !maximizing);
      FoldFinite(r, p, ms[1..], depth, maximizing, if maximizing then Max(acc, v) else Min(acc, v));
    }
  }

  /** The pruned search at the full window never yields an infinity. */
  lemma SearchFinite<P(!new)>(r: Rules<P>, p: P, depth: nat, maximizing: bool)
    requires WellFormed(r)
    ensures AlphaBeta(r, p, depth, NegInf, PosInf, maximizing).Fin?
  {
    AlphaBetaIsMinimax(r, p, depth, maximizing);
    MinimaxFinite(r, p, depth, maximizing);
  }
}
