/** Depth-limited minimax with fail-soft alpha-beta pruning over a board that
    is changed in place by push and pop, and the root search that picks the
    move to play.

    `Value` is plain minimax without pruning; `Minimax` is proved to agree with
    it inside the window and to bound it outside, and to leave the board as it
    found it. */
module Search {
  import opened Chess
  import StaticEvaluator
  import MonteCarlo

  /** A score, with `math.inf` and `-math.inf` as its ends. */
  datatype Ext = NegInf | Fin(r: real) | PosInf

  predicate Le(a: Ext, b: Ext)
  {
    a.NegInf? || b.PosInf? || (a.Fin? && b.Fin? && a.r <= b.r)
  }

  predicate Lt(a: Ext, b: Ext)
  {
    !Le(b, a)
  }

  /** Python's `max(a, b)`: `b` only when it is strictly larger. */
  function Max(a: Ext, b: Ext): Ext
  {
    if Lt(a, b) then b else a
  }

  /** Python's `min(a, b)`: `b` only when it is strictly smaller. */
  function Min(a: Ext, b: Ext): Ext
  {
    if Lt(b, a) then b else a
  }

  /** The largest of the scores, -inf for none. */
  function MaxOf(vs: seq<Ext>): Ext
  {
    if vs == [] then NegInf else Max(MaxOf(vs[..|vs| - 1]), vs[|vs| - 1])
  }

  /** The smallest of the scores, +inf for none. */
  function MinOf(vs: seq<Ext>): Ext
  {
    if vs == [] then PosInf else Min(MinOf(vs[..|vs| - 1]), vs[|vs| - 1])
  }

  /** Which evaluator the leaves use: `use_mc` and `rollout_count`. */
  datatype EvalConfig = EvalConfig(useMC: bool, rollouts: nat)

  /** The Monte-Carlo evaluator divides by the rollout count. */
  predicate ValidEval(ev: EvalConfig)
  {
    ev.useMC ==> ev.rollouts > 0
  }

  /** The random draws of the Monte-Carlo evaluator, for each leaf position. */
  type Oracle = History -> MonteCarlo.RolloutDraws

  /** Factor that brings the Monte-Carlo mean to the scale of material scores. */
  const MCScale: real := 1000.0

  /** The static score of a position, from the board's queries. */
  function StaticAt(g: Game, h: History): int
  {
    StaticEvaluator.StaticScore(g.pieces(h), g.gameOver(h), g.checkmate(h), g.turn(h))
  }

  /** What a leaf of the search is worth: the static score, or the
      Monte-Carlo mean times 1000. */
  function LeafValue(g: Game, ev: EvalConfig, rng: Oracle, h: History): (v: real)
    requires ValidEval(ev)
    ensures !ev.useMC ==> v == StaticAt(g, h) as real
    ensures ev.useMC ==> -1000.0 <= v <= 1000.0
  {
    if ev.useMC then MonteCarlo.MCValue(g, h, ev.rollouts, rng(h)) * MCScale
    else StaticAt(g, h) as real
  }

  /** Plain minimax: the value of `h` searched `depth` plies deep, the side to
      move maximizing or minimizing. A position that is not over and has no
      legal move is worth -inf to a maximizer and +inf to a minimizer. */
  function Value(g: Game, ev: EvalConfig, rng: Oracle, h: History, depth: nat, maximizing: bool): Ext
    requires ValidEval(ev)
    decreases depth, 1
  {
    if depth == 0 || g.gameOver(h) then Fin(LeafValue(g, ev, rng, h))
    else if maximizing then MaxOf(ChildValues(g, ev, rng, h, depth - 1, false))
    else MinOf(ChildValues(g, ev, rng, h, depth - 1, true))
  }

  /** The minimax values of the positions after each legal move, in the
      board's move order. */
  function ChildValues(g: Game, ev: EvalConfig, rng: Oracle, h: History, depth: nat, maximizing: bool): (vs: seq<Ext>)
    requires ValidEval(ev)
    ensures |vs| == |g.legal(h)|
    decreases depth + 1, 0
  {
    var moves := g.legal(h);
    seq(|moves|, i requires 0 <= i < |moves| => Value(g, ev, rng, h + [moves[i]], depth, maximizing))
  }

  /** The fail-soft contract of a search with window (alpha, beta): a result
      inside the window is the exact value, a result at or below alpha is an
      upper bound of it, a result at or above beta a lower bound. */
  predicate FailSoft(r: Ext, v: Ext, alpha: Ext, beta: Ext)
  {
    && (Le(r, alpha) ==> Le(v, r))
    && (Le(beta, r) ==> Le(r, v))
    && (Lt(alpha, r) && Lt(r, beta) ==> r == v)
  }

  /** The leaf evaluation of `minimax`. */
  method Evaluate(board: Board, ev: EvalConfig, rng: Oracle) returns (v: real)
    requires ValidEval(ev)
    ensures v == LeafValue(board.game, ev, rng, board.stack)
  {
    if ev.useMC {
      var mean := MonteCarlo.EvaluateMC(board, ev.rollouts, rng(board.stack));
      v := mean * MCScale;
    } else {
      var g, h := board.game, board.stack;
      var score := StaticEvaluator.EvaluateStatic(g.pieces(h), g.gameOver(h), g.checkmate(h), g.turn(h));
      v := score as real;
    }
  }

  /** `minimax`: alpha-beta search `depth` plies deep from the board's position. */
  method Minimax(board: Board, depth: nat, alpha: Ext, beta: Ext, maximizing: bool, ev: EvalConfig, rng: Oracle)
    returns (r: Ext)
    requires ValidEval(ev)
    modifies board
    ensures board.stack == old(board.stack)
    ensures depth == 0 || board.game.gameOver(board.stack) ==> r == Fin(LeafValue(board.game, ev, rng, board.stack))
    ensures Lt(alpha, beta) ==> FailSoft(r, Value(board.game, ev, rng, board.stack, depth, maximizing), alpha, beta)
    ensures alpha.NegInf? && beta.PosInf? ==> r == Value(board.game, ev, rng, board.stack, depth, maximizing)
    decreases depth, 1
  {
    if depth == 0 || board.IsGameOver() {
      var v := Evaluate(board, ev, rng);
      return Fin(v);
    }
    if maximizing {
      r := MaxNode(board, depth, alpha, beta, ev, rng);
    } else {
      r := MinNode(board, depth, alpha, beta, ev, rng);
    }
  }

  /** The maximizing branch of `minimax`: try each legal move in turn, raise
      alpha with the best reply value, and stop once alpha reaches beta. */
  method MaxNode(board: Board, depth: nat, alpha: Ext, beta: Ext, ev: EvalConfig, rng: Oracle)
    returns (r: Ext)
    requires ValidEval(ev) && depth > 0
    modifies board
    ensures board.stack == old(board.stack)
    ensures Lt(alpha, beta) ==> FailSoft(r, MaxOf(ChildValues(board.game, ev, rng, board.stack, depth - 1, false)), alpha, beta)
    decreases depth, 0
  {
    var legalMoves := board.LegalMoves();
    ghost var h := board.stack;
    ghost var vs := ChildValues(board.game, ev, rng, h, depth - 1, false);
    var a, b := alpha, beta;
    var maxEval := NegInf;
    var i := 0;
    while i < |legalMoves|
      invariant i <= |legalMoves|
      invariant board.stack == h && b == beta
      invariant MaxSoFar(alpha, beta, a, maxEval, MaxOf(vs[..i]))
    {
      board.Push(legalMoves[i]);
      var evalVal := Minimax(board, depth - 1, a, b, false, ev, rng);

      var _ := board.Pop();
      assert board.stack == h by {
        assert (h + [legalMoves[i]])[..|h|] == h;
      }
      assert vs[..i + 1][..i] == vs[..i];
      MaxOfBounds(vs, i);
      MaxNodeStep(alpha, beta, a, maxEval, MaxOf(vs[..i]), evalVal, vs[i], MaxOf(vs));
      maxEval := Max(maxEval, evalVal);
      a := Max(a, evalVal);
      if Le(b, a) {
        break;
      }
      i := i + 1;
    }
    if i == |legalMoves| {
      assert vs[..i] == vs;
    }
    r := maxEval;
  }

  /** The minimizing branch of `minimax`, the mirror image of `MaxNode`. */
  method MinNode(board: Board, depth: nat, alpha: Ext, beta: Ext, ev: EvalConfig, rng: Oracle)
    returns (r: Ext)
    requires ValidEval(ev) && depth > 0
    modifies board
    ensures board.stack == old(board.stack)
    ensures Lt(alpha, beta) ==> FailSoft(r, MinOf(ChildValues(board.game, ev, rng, board.stack, depth - 1, true)), alpha, beta)
    decreases depth, 0
  {
    var legalMoves := board.LegalMoves();
    ghost var h := board.stack;
    ghost var vs := ChildValues(board.game, ev, rng, h, depth - 1, true);
    var a, b := alpha, beta;
    var minEval := PosInf;
    var i := 0;
    while i < |legalMoves|
      invariant i <= |legalMoves|
      invariant board.stack == h && a == alpha
      invariant MinSoFar(alpha, beta, b, minEval, MinOf(vs[..i]))
    {
      board.Push(legalMoves[i]);
      var evalVal := Minimax(board, depth - 1, a, b, true, ev, rng);

      var _ := board.Pop();
      assert board.stack == h by {
        assert (h + [legalMoves[i]])[..|h|] == h;
      }
      assert vs[..i + 1][..i] == vs[..i];
      MinOfBounds(vs, i);
      MinNodeStep(alpha, beta, b, minEval, MinOf(vs[..i]), evalVal, vs[i], MinOf(vs));
      minEval := Min(minEval, evalVal);
      b := Min(b, evalVal);
      if Le(b, a) {
        break;
      }
      i := i + 1;
    }
    if i == |legalMoves| {
      assert vs[..i] == vs;
    }
    r := minEval;
  }

  lemma {:induction false} MaxOfBounds(vs: seq<Ext>, i: nat)
    requires i < |vs|
    ensures Le(vs[i], MaxOf(vs))
  {
    if i < |vs| - 1 {
      MaxOfBounds(vs[..|vs| - 1], i);
    }
  }

  lemma {:induction false} MinOfBounds(vs: seq<Ext>, i: nat)
    requires i < |vs|
    ensures Le(MinOf(vs), vs[i])
  {
    if i < |vs| - 1 {
      MinOfBounds(vs[..|vs| - 1], i);
    }
  }

  /** The state of a maximizing node after some of its children: alpha is
      raised to the best result so far, the window is still open, and the
      best result so far is a fail-soft approximation of the true maximum
      `m` of those children (exact once it is above alpha). Once a cutoff
      has happened the loop stops, and the running result is already a
      fail-soft answer for the whole node. */
  predicate MaxSoFar(alpha: Ext, beta: Ext, a: Ext, maxEval: Ext, m: Ext)
  {
    && a == Max(alpha, maxEval)
    && (Lt(alpha, beta) ==> Lt(a, beta) && Le(m, maxEval) && (Lt(alpha, maxEval) ==> Le(maxEval, m)))
  }

  /** The mirror image of `MaxSoFar` for a minimizing node. */
  predicate MinSoFar(alpha: Ext, beta: Ext, b: Ext, minEval: Ext, m: Ext)
  {
    && b == Min(beta, minEval)
    && (Lt(alpha, beta) ==> Lt(alpha, b) && Le(minEval, m) && (Lt(minEval, beta) ==> Le(m, minEval)))
  }

  /** One child of a maximizing node, searched with window (a, beta) and
      worth `v`: folding its result `r` into the running maximum either keeps
      `MaxSoFar` for the children seen so far, or causes a cutoff whose
      result bounds the node's true value `total` from below. */
  lemma MaxNodeStep(alpha: Ext, beta: Ext, a: Ext, maxEval: Ext, m: Ext, r: Ext, v: Ext, total: Ext)
    requires MaxSoFar(alpha, beta, a, maxEval, m)
    requires Lt(a, beta) ==> FailSoft(r, v, a, beta)
    requires Le(v, total)
    ensures Lt(Max(a, r), beta) || !Lt(alpha, beta) ==> MaxSoFar(alpha, beta, Max(a, r), Max(maxEval, r), Max(m, v))
    ensures Le(beta, Max(a, r)) && Lt(alpha, beta) ==> FailSoft(Max(maxEval, r), total, alpha, beta)
  {
  }

  /** The mirror image of `MaxNodeStep`. */
  lemma MinNodeStep(alpha: Ext, beta: Ext, b: Ext, minEval: Ext, m: Ext, r: Ext, v: Ext, total: Ext)
    requires MinSoFar(alpha, beta, b, minEval, m)
    requires Lt(alpha, b) ==> FailSoft(r, v, alpha, b)
    requires Le(total, v)
    ensures Lt(alpha, Min(b, r)) || !Lt(alpha, beta) ==> MinSoFar(alpha, beta, Min(b, r), Min(minEval, r), Min(m, v))
    ensures Le(Min(b, r), alpha) && Lt(alpha, beta) ==> FailSoft(Min(minEval, r), total, alpha, beta)
  {
  }

  /** With the full window (-inf, +inf) a fail-soft result is the exact
      value: pruning never changes what the top-level search returns. */
  lemma FailSoftFullWindow(r: Ext, v: Ext)
    requires FailSoft(r, v, NegInf, PosInf)
    ensures r == v
  {
  }

  // ----- The root search -----

  /** The score `select_best_move` starts from: -inf for White, +inf for Black. */
  function Worst(maximizing: bool): Ext
  {
    if maximizing then NegInf else PosInf
  }

  /** Whether `x` replaces the best score so far: `select_best_move`
      compares strictly, so a tie keeps the earlier move. */
  predicate Improves(x: Ext, best: Ext, maximizing: bool)
  {
    if maximizing then Lt(best, x) else Lt(x, best)
  }

  /** The root loop run over the child values `vs`: the best score found and
      the index of the move that first reached it. */
  function Pick(vs: seq<Ext>, maximizing: bool): (p: (Ext, Option<nat>))
    ensures p.1.Some? ==> p.1.value < |vs| && vs[p.1.value] == p.0
    ensures p.1.None? ==> p.0 == Worst(maximizing)
  {
    if vs == [] then (Worst(maximizing), None)
    else
      var prev := Pick(vs[..|vs| - 1], maximizing);
      if Improves(vs[|vs| - 1], prev.0, maximizing) then (vs[|vs| - 1], Some(|vs| - 1)) else prev
  }

  /** The move `select_best_move` returns, from the plain minimax values of the
      root's children: White maximizes, Black minimizes. */
  function BestMove(g: Game, ev: EvalConfig, rng: Oracle, h: History, depth: nat): (best: Option<Move>)
    requires ValidEval(ev) && depth >= 1
    ensures best.Some? ==> best.value in g.legal(h)
    ensures g.legal(h) == [] ==> best == None
  {
    match BestIndex(g, ev, rng, h, depth)
    case None => None
    case Some(i) => Some(g.legal(h)[i])
  }

  /** The engine as a player: `select_best_move` with fixed settings, in
      every position. */
  function Engine(g: Game, ev: EvalConfig, rng: Oracle, depth: nat): Player
    requires ValidEval(ev) && depth >= 1
  {
    h => BestMove(g, ev, rng, h, depth)
  }

  /** The index among the legal moves of the move `select_best_move` returns. */
  function BestIndex(g: Game, ev: EvalConfig, rng: Oracle, h: History, depth: nat): (k: Option<nat>)
    requires ValidEval(ev) && depth >= 1
    ensures k.Some? ==> k.value < |g.legal(h)|
  {
    var maximizing := g.turn(h) == White;
    Pick(ChildValues(g, ev, rng, h, depth - 1, !maximizing), maximizing).1
  }

  /** The minimax value of the position after the `j`-th legal move at the
      root, searched by the opponent one ply less deep. */
  function ChildValue(g: Game, ev: EvalConfig, rng: Oracle, h: History, depth: nat, j: nat): Ext
    requires ValidEval(ev) && depth >= 1 && j < |g.legal(h)|
  {
    Value(g, ev, rng, h + [g.legal(h)[j]], depth - 1, g.turn(h) != White)
  }

  /** `select_best_move`: search every root move with a window narrowed by the
      best score so far, and keep the first move with the best score. */
  method SelectBestMove(board: Board, depth: nat, ev: EvalConfig, rng: Oracle) returns (bestMove: Option<Move>)
    requires ValidEval(ev) && depth >= 1
    modifies board
    ensures board.stack == old(board.stack)
    ensures bestMove == BestMove(board.game, ev, rng, board.stack, depth)
  {
    bestMove := None;
    var maxEval, minEval := NegInf, PosInf;
    var alpha, beta := NegInf, PosInf;
    var maximizing := board.Turn() == White;
    var legalMoves := board.LegalMoves();
    ghost var h := board.stack;
    ghost var vs := ChildValues(board.game, ev, rng, h, depth - 1, !maximizing);
    ghost var best, bestIdx: Option<nat> := Worst(maximizing), None;
    for i := 0 to |legalMoves|
      invariant board.stack == h
      invariant Pick(vs[..i], maximizing) == (best, bestIdx)
      invariant RootWindow(maximizing, best, alpha, beta, maxEval, minEval)
      invariant bestMove == if bestIdx.None? then None else Some(legalMoves[bestIdx.value])
    {
      board.Push(legalMoves[i]);
      var evalVal := Minimax(board, depth - 1, alpha, beta, !maximizing, ev, rng);
      var _ := board.Pop();
      assert board.stack == h by {
        assert (h + [legalMoves[i]])[..|h|] == h;
      }
      PickSnoc(vs, i, maximizing);
      RootStep(maximizing, best, alpha, beta, evalVal, vs[i]);
      if maximizing {
        if Lt(maxEval, evalVal) {
          maxEval := evalVal;
          bestMove := Some(legalMoves[i]);
          bestIdx := Some(i);
        }
        alpha := Max(alpha, evalVal);
      } else {
        if Lt(evalVal, minEval) {
          minEval := evalVal;
          bestMove := Some(legalMoves[i]);
          bestIdx := Some(i);
        }
        beta := Min(beta, evalVal);
      }
      best := if maximizing then maxEval else minEval;
    }
    assert vs[..|legalMoves|] == vs;
  }

  /** The search window of the root loop: White raises alpha to the best score
      so far with beta at +inf, Black lowers beta with alpha at -inf. */
  predicate RootWindow(maximizing: bool, best: Ext, alpha: Ext, beta: Ext, maxEval: Ext, minEval: Ext)
  {
    if maximizing then maxEval == best && alpha == best && beta == PosInf
    else minEval == best && beta == best && alpha == NegInf
  }

  /** A root move searched with the root window beats the best score so far
      exactly when its true value does, and then the search returned that
      value. */
  lemma RootStep(maximizing: bool, best: Ext, alpha: Ext, beta: Ext, r: Ext, v: Ext)
    requires if maximizing then alpha == best && beta == PosInf else beta == best && alpha == NegInf
    requires Lt(alpha, beta) ==> FailSoft(r, v, alpha, beta)
    ensures Improves(r, best, maximizing) <==> Improves(v, best, maximizing)
    ensures Improves(r, best, maximizing) ==> r == v
  {
  }

  /** One more step of the root loop. */
  lemma PickSnoc(vs: seq<Ext>, i: nat, maximizing: bool)
    requires i < |vs|
    ensures var prev := Pick(vs[..i], maximizing);
      Pick(vs[..i + 1], maximizing) == if Improves(vs[i], prev.0, maximizing) then (vs[i], Some(i)) else prev
  {
    assert vs[..i + 1][..i] == vs[..i];
  }

  // ----- Properties of the root search -----

  /** The root loop finds the best score (the maximum for White, the minimum
      for Black), no child beats it, the chosen index is the first child with
      that score, and no move is chosen exactly when every child is worth the
      starting score. */
  lemma {:induction false} PickIsFirstBest(vs: seq<Ext>, maximizing: bool)
    ensures var p := Pick(vs, maximizing);
      && p.0 == (if maximizing then MaxOf(vs) else MinOf(vs))
      && (forall j :: 0 <= j < |vs| ==> !Improves(vs[j], p.0, maximizing))
      && (p.1.Some? ==> forall j :: 0 <= j < p.1.value ==> Improves(vs[p.1.value], vs[j], maximizing))
      && (p.1.None? <==> forall j :: 0 <= j < |vs| ==> vs[j] == Worst(maximizing))
  {
    if vs != [] {
      var init := vs[..|vs| - 1];
      PickIsFirstBest(init, maximizing);
      assert forall j :: 0 <= j < |init| ==> init[j] == vs[j];
    }
  }

  /** The move chosen is a best move for the side to move: no legal move has
      a better minimax value, every legal move before it is strictly worse,
      and when the game is not over its value is the minimax value of the
      root itself. */
  lemma BestMoveIsFirstBest(g: Game, ev: EvalConfig, rng: Oracle, h: History, depth: nat)
    requires ValidEval(ev) && depth >= 1
    ensures var maximizing := g.turn(h) == White;
      var k := BestIndex(g, ev, rng, h, depth);
      k.Some? ==>
        var v := ChildValue(g, ev, rng, h, depth, k.value);
        && BestMove(g, ev, rng, h, depth) == Some(g.legal(h)[k.value])
        && (forall j :: 0 <= j < |g.legal(h)| ==> !Improves(ChildValue(g, ev, rng, h, depth, j), v, maximizing))
        && (forall j :: 0 <= j < k.value ==> Improves(v, ChildValue(g, ev, rng, h, depth, j), maximizing))
        && (!g.gameOver(h) ==> v == Value(g, ev, rng, h, depth, maximizing))
  {
    var maximizing := g.turn(h) == White;
    var vs := ChildValues(g, ev, rng, h, depth - 1, !maximizing);
    PickIsFirstBest(vs, maximizing);
    assert forall j :: 0 <= j < |vs| ==> vs[j] == ChildValue(g, ev, rng, h, depth, j);
  }

  lemma {:induction false} ExtremesOfFinite(vs: seq<Ext>)
    requires vs != [] && forall i :: 0 <= i < |vs| ==> vs[i].Fin?
    ensures MaxOf(vs).Fin? && MinOf(vs).Fin?
  {
    if |vs| > 1 {
      ExtremesOfFinite(vs[..|vs| - 1]);
    }
  }

  /** When every position that is not over has a legal move, no minimax value
      is infinite. */
  lemma {:induction false} ValueIsFinite(g: Game, ev: EvalConfig, rng: Oracle, h: History, depth: nat, maximizing: bool)
    requires ValidEval(ev) && NoStuckPositions(g)
    ensures Value(g, ev, rng, h, depth, maximizing).Fin?
    decreases depth
  {
    if !(depth == 0 || g.gameOver(h)) {
      var vs := ChildValues(g, ev, rng, h, depth - 1, !maximizing);
      forall i | 0 <= i < |vs|
        ensures vs[i].Fin?
      {
        ValueIsFinite(g, ev, rng, h + [g.legal(h)[i]], depth - 1, !maximizing);
      }
      ExtremesOfFinite(vs);
    }
  }

  /** `select_best_move` returns no move exactly when there is no legal move,
      provided every position that is not over has a legal move. */
  lemma BestMoveNoneIffNoMoves(g: Game, ev: EvalConfig, rng: Oracle, h: History, depth: nat)
    requires ValidEval(ev) && depth >= 1 && NoStuckPositions(g)
    ensures BestMove(g, ev, rng, h, depth) == None <==> g.legal(h) == []
  {
    var maximizing := g.turn(h) == White;
    var vs := ChildValues(g, ev, rng, h, depth - 1, !maximizing);
    PickIsFirstBest(vs, maximizing);
    if vs != [] {
      ValueIsFinite(g, ev, rng, h + [g.legal(h)[0]], depth - 1, !maximizing);
      assert vs[0].Fin?;
    }
  }

  /** When every root move has the same finite value, `select_best_move`
      returns the first legal move: the strict comparison keeps the first of
      tied moves, whatever the side to move. */
  lemma TiedMovesPickFirst(g: Game, ev: EvalConfig, rng: Oracle, h: History, depth: nat)
    requires ValidEval(ev) && depth >= 1 && g.legal(h) != []
    requires ChildValue(g, ev, rng, h, depth, 0).Fin?
    requires forall j :: 0 <= j < |g.legal(h)| ==> ChildValue(g, ev, rng, h, depth, j) == ChildValue(g, ev, rng, h, depth, 0)
    ensures BestMove(g, ev, rng, h, depth) == Some(g.legal(h)[0])
  {
    var maximizing := g.turn(h) == White;
    var vs := ChildValues(g, ev, rng, h, depth - 1, !maximizing);
    PickIsFirstBest(vs, maximizing);
    assert forall j :: 0 <= j < |vs| ==> vs[j] == ChildValue(g, ev, rng, h, depth, j);
    assert vs[0] != Worst(maximizing);
  }

  /** A mate in one is found at depth 1: with White to move and the static
      evaluator, a move that checkmates Black scores 9999, and when no child
      scores more and no earlier move scores as much, it is the move chosen. */
  lemma FirstMateIsChosen(g: Game, ev: EvalConfig, rng: Oracle, h: History, k: nat)
    requires !ev.useMC && g.turn(h) == White && k < |g.legal(h)|
    requires var mated := h + [g.legal(h)[k]]; g.gameOver(mated) && g.checkmate(mated) && g.turn(mated) == Black
    requires forall j :: 0 <= j < |g.legal(h)| ==> StaticAt(g, h + [g.legal(h)[j]]) <= StaticEvaluator.MateScore
    requires forall j :: 0 <= j < k ==> StaticAt(g, h + [g.legal(h)[j]]) < StaticEvaluator.MateScore
    ensures BestMove(g, ev, rng, h, 1) == Some(g.legal(h)[k])
  {
    var vs := ChildValues(g, ev, rng, h, 0, false);
    PickIsFirstBest(vs, true);
    assert vs[k] == Fin(StaticEvaluator.MateScore as real);
    var p := Pick(vs, true);
    assert forall j :: 0 <= j < |vs| ==> vs[j] == Fin(StaticAt(g, h + [g.legal(h)[j]]) as real);
    assert p.1.Some?;
    assert p.1.value == k;
  }
}
