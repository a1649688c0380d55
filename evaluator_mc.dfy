/** The Monte-Carlo evaluator: bounded random playouts on a copy of the board,
    each scored +1 (White won), -1 (Black won) or 0, and averaged.

    `random.choice` is replaced by an oracle: a playout reads one raw draw per
    step, and the move played is the legal move at that draw modulo the
    number of legal moves. */
module MonteCarlo {
  import opened Chess

  /** `max_steps` of `simulate_random`, the ceiling `evaluate_mc` uses. */
  const DefaultMaxSteps: nat := 20

  /** The raw random draws of one playout, by step. */
  type Draws = nat -> nat

  /** The draws of each playout, by playout index. */
  type RolloutDraws = nat -> Draws

  /** `random.choice(legal_moves)` with `raw` as the random draw. */
  function Choose(moves: seq<Move>, raw: nat): (m: Move)
    requires moves != []
    ensures m in moves
  {
    moves[raw % |moves|]
  }

  /** The position a playout reaches from `h` with `budget` steps left, the
      next draw being `draws(step)`: it stops at game over, when no move is
      legal, or when the budget is spent. */
  function Rollout(g: Game, h: History, budget: nat, step: nat, draws: Draws): History
    decreases budget
  {
    if budget == 0 || g.gameOver(h) || g.legal(h) == [] then h
    else Rollout(g, h + [Choose(g.legal(h), draws(step))], budget - 1, step + 1, draws)
  }

  /** The score of a finished game from `board.result()`. */
  function ResultValue(result: string): real
  {
    if result == "1-0" then 1.0 else if result == "0-1" then -1.0 else 0.0
  }

  /** The value `simulate_random` returns for a playout of at most `maxSteps`
      random moves from `h`. */
  function PlayoutScore(g: Game, h: History, maxSteps: nat, draws: Draws): real
  {
    var last := Rollout(g, h, maxSteps, 0, draws);
    if g.gameOver(last) then ResultValue(ResultString(g, last)) else 0.0
  }

  method SimulateRandom(board: Board, maxSteps: nat, draws: Draws) returns (score: real)
    ensures score == PlayoutScore(board.game, board.stack, maxSteps, draws)
    ensures score == 1.0 || score == -1.0 || score == 0.0
  {
    var temp := board.Copy();
    var steps: nat := 0;
    while !temp.IsGameOver() && steps < maxSteps
      invariant steps <= maxSteps
      invariant temp.game == board.game
      invariant Rollout(temp.game, temp.stack, maxSteps - steps, steps, draws)
             == Rollout(board.game, board.stack, maxSteps, 0, draws)
      decreases maxSteps - steps
    {
      var legalMoves := temp.LegalMoves();
      if legalMoves == [] {
        break;
      }
      var move := legalMoves[draws(steps) % |legalMoves|];
      temp.Push(move);
      steps := steps + 1;
    }
    if temp.IsGameOver() {
      var result := ResultString(temp.game, temp.stack);
      if result == "1-0" {
        return 1.0;
      } else if result == "0-1" {
        return -1.0;
      } else {
        return 0.0;
      }
    }
    return 0.0;
  }

  /** The sum of the first `n` playout scores. */
  function RolloutSum(g: Game, h: History, n: nat, draws: RolloutDraws): real
  {
    if n == 0 then 0.0 else RolloutSum(g, h, n - 1, draws) + PlayoutScore(g, h, DefaultMaxSteps, draws(n - 1))
  }

  /** The value `evaluate_mc` returns: the mean of `n` playouts. */
  function MCValue(g: Game, h: History, n: nat, draws: RolloutDraws): (v: real)
    requires n > 0
    ensures -1.0 <= v <= 1.0
  {
    RolloutSumBounds(g, h, n, draws);
    RolloutSum(g, h, n, draws) / (n as real)
  }

  method EvaluateMC(board: Board, rolloutCount: nat, draws: RolloutDraws) returns (mean: real)
    requires rolloutCount > 0
    ensures mean == MCValue(board.game, board.stack, rolloutCount, draws)
  {
    var totalScore := 0.0;
    for r := 0 to rolloutCount
      invariant totalScore == RolloutSum(board.game, board.stack, r, draws)
    {
      var s := SimulateRandom(board, DefaultMaxSteps, draws(r));
      totalScore := totalScore + s;
    }
    mean := totalScore / (rolloutCount as real);
  }

  // ----- Properties of the playouts -----

  /** A playout only ever ends in one of the three results. */
  lemma PlayoutScoreValues(g: Game, h: History, maxSteps: nat, draws: Draws)
    ensures var s := PlayoutScore(g, h, maxSteps, draws); s == 1.0 || s == -1.0 || s == 0.0
  {
  }

  /** +1 exactly when the playout reaches a finished game that White won, -1
      exactly when Black won; a draw, or a playout cut short, scores 0. */
  lemma PlayoutScoreMeaning(g: Game, h: History, maxSteps: nat, draws: Draws)
    ensures var last := Rollout(g, h, maxSteps, 0, draws);
      && (PlayoutScore(g, h, maxSteps, draws) == 1.0 <==> g.gameOver(last) && g.winner(last) == Some(White))
      && (PlayoutScore(g, h, maxSteps, draws) == -1.0 <==> g.gameOver(last) && g.winner(last) == Some(Black))
  {
  }

  /** A playout extends the position it starts from by at most `budget` moves,
      each legal where it is played, and it stops early only at a finished
      game or a position without legal moves. */
  lemma {:induction false} RolloutShape(g: Game, h: History, budget: nat, step: nat, draws: Draws)
    ensures var last := Rollout(g, h, budget, step, draws);
      && |h| <= |last| <= |h| + budget
      && last[..|h|] == h
      && (forall i :: |h| <= i < |last| ==> last[i] in g.legal(last[..i]))
      && (|last| < |h| + budget ==> g.gameOver(last) || g.legal(last) == [])
    decreases budget
  {
    if budget == 0 || g.gameOver(h) || g.legal(h) == [] {
    } else {
      var m := Choose(g.legal(h), draws(step));
      var h' := h + [m];
      RolloutShape(g, h', budget - 1, step + 1, draws);
      var last := Rollout(g, h, budget, step, draws);
      assert last == Rollout(g, h', budget - 1, step + 1, draws);
      assert last[..|h'|] == h';
      assert last[..|h|] == h' [..|h|] == h;
      forall i | |h| <= i < |last|
        ensures last[i] in g.legal(last[..i])
      {
        if i == |h| {
          assert last[..i] == h;
          assert last[i] == h'[i] == m;
        }
      }
    }
  }

  lemma {:induction false} RolloutSumBounds(g: Game, h: History, n: nat, draws: RolloutDraws)
    ensures -(n as real) <= RolloutSum(g, h, n, draws) <= n as real
  {
    if n > 0 {
      RolloutSumBounds(g, h, n - 1, draws);
      PlayoutScoreValues(g, h, DefaultMaxSteps, draws(n - 1));
    }
  }
}
