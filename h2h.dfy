/** One head-to-head game between the two configurations of the engine: the
    baseline searches with the static evaluator, the hybrid with the
    Monte-Carlo evaluator. Each side's search times and moves are logged. */
module HeadToHead {
  import opened Chess
  import Search
  import VsStockfish
  import Playout

  /** The colours of the baseline and of the hybrid engine. */
  function Colors(baselineIsWhite: bool): (c: (Color, Color))
    ensures c.0 == White <==> baselineIsWhite
    ensures c.1 == Opponent(c.0)
  {
    if baselineIsWhite then (White, Black) else (Black, White)
  }

  /** The baseline's search: static evaluation (the rollout count is the
      unused default of `select_best_move`). */
  const BaselineEval: Search.EvalConfig := Search.EvalConfig(false, 30)

  /** The hybrid's search: Monte-Carlo evaluation with `hybridRollouts` playouts. */
  function HybridEval(hybridRollouts: nat): Search.EvalConfig
  {
    Search.EvalConfig(true, hybridRollouts)
  }

  /** How a move is logged: its UCI string, or "None" when there is none. */
  function MoveLabel(m: Option<Move>): string
  {
    if m.Some? then Uci(m.value) else "None"
  }

  /** The label of the winner: "Baseline", "Hybrid" or "Draw". */
  function WinnerLabel(winner: Option<Color>, baselineIsWhite: bool): (name: string)
    ensures name == "Baseline" <==> winner == Some(Colors(baselineIsWhite).0)
    ensures name == "Hybrid" <==> winner == Some(Colors(baselineIsWhite).1)
    ensures name == "Draw" <==> winner == None
  {
    var (baselineColor, hybridColor) := Colors(baselineIsWhite);
    match winner
    case None => "Draw"
    case Some(c) => if c == baselineColor then "Baseline" else assert c.White? || c.Black?; "Hybrid"
  }

  /** The search times `c` logs in a game loop that ended at `e`: one per
      ply it made, then one for a last turn on which it found no move. */
  function SideTimes(g: Game, c: Color, clock: VsStockfish.Clock, e: Playout.Ending): seq<real>
  {
    Playout.TimesOf(g, c, clock, e.final, 0) + (if e.stuck && g.turn(e.final) == c then [clock(e.final)] else [])
  }

  /** The moves `c` logs in a game loop that ended at `e`: the UCI string of
      each ply it made, then "None" for a last turn on which it found no move. */
  function SideMoves(g: Game, c: Color, e: Playout.Ending): seq<string>
  {
    UciList(Playout.PliesBy(g, c, e.final, 0)) + (if e.stuck && g.turn(e.final) == c then ["None"] else [])
  }

  /** The dictionary `play_h2h_game` returns; the final position stands for
      its FEN. */
  datatype H2HRecord = H2HRecord(winner: string, baselineIsWhite: bool, baselineTimes: seq<real>, hybridTimes: seq<real>,
                                 finalPosition: History, termination: string, moves: seq<string>)

  /** How a call ends: the record, or the `AttributeError` raised when the
      loop stopped on a missing move and the game has no outcome. */
  datatype H2HRun = Played(record: H2HRecord) | MissingOutcome(position: History)

  /** The record of a game loop that ended at `e`, at game over. */
  function Record(g: Game, e: Playout.Ending, baselineIsWhite: bool, clock: VsStockfish.Clock): H2HRecord
    requires g.gameOver(e.final)
  {
    var (baselineColor, hybridColor) := Colors(baselineIsWhite);
    var outcome := Outcome(g, e.final);
    H2HRecord(WinnerLabel(outcome.value.winner, baselineIsWhite), baselineIsWhite,
              SideTimes(g, baselineColor, clock, e), SideTimes(g, hybridColor, clock, e),
              e.final, VsStockfish.TerminationLabel(outcome), UciList(e.final))
  }

  /** The game loop of the baseline against the hybrid, each playing
      `select_best_move` with its own settings. */
  function H2HGame(g: Game, baselineDepth: nat, hybridDepth: nat, hybridRollouts: nat, baselineIsWhite: bool,
                rng: Search.Oracle): Playout.Ending
    requires Finite(g) && baselineDepth >= 1 && hybridDepth >= 1 && hybridRollouts > 0
  {
    Playout.PlayOut(g, Search.Engine(g, BaselineEval, rng, baselineDepth), Colors(baselineIsWhite).0,
                    Search.Engine(g, HybridEval(hybridRollouts), rng, hybridDepth), [])
  }

  /** `play_h2h_game`. The per-side move logs, which the function keeps but
      does not return, are ghost results. */
  method PlayH2H(g: Game, baselineDepth: nat, hybridDepth: nat, hybridRollouts: nat, baselineIsWhite: bool,
                 rng: Search.Oracle, clock: VsStockfish.Clock)
    returns (run: H2HRun, ghost baselineMoves: seq<string>, ghost hybridMoves: seq<string>)
    requires Finite(g) && baselineDepth >= 1 && hybridDepth >= 1 && hybridRollouts > 0
    ensures var e := H2HGame(g, baselineDepth, hybridDepth, hybridRollouts, baselineIsWhite, rng);
      && baselineMoves == SideMoves(g, Colors(baselineIsWhite).0, e)
      && hybridMoves == SideMoves(g, Colors(baselineIsWhite).1, e)
      && run == if e.stuck then MissingOutcome(e.final) else Played(Record(g, e, baselineIsWhite, clock))
  {
    var board := new Board(g, []);
    var baselineTimes, hybridTimes;
    baselineTimes, hybridTimes, baselineMoves, hybridMoves :=
      GameLoop(board, baselineDepth, hybridDepth, hybridRollouts, baselineIsWhite, rng, clock);
    var outcome := Outcome(g, board.stack);
    if outcome.None? {
      return MissingOutcome(board.stack), baselineMoves, hybridMoves;
    }
    var (baselineColor, hybridColor) := Colors(baselineIsWhite);
    var winner := "Draw";
    if outcome.value.winner == Some(baselineColor) {
      winner := "Baseline";
    } else if outcome.value.winner == Some(hybridColor) {
      winner := "Hybrid";
    }
    run := Played(H2HRecord(winner, baselineIsWhite, baselineTimes, hybridTimes, board.stack,
                            outcome.value.termination, UciList(board.stack)));
  }

  /** The `while not board.is_game_over()` loop of `play_h2h_game`, from the
      start position on `board`: it leaves `board` at the end of the game
      loop and returns each side's search times and (ghost) move log. */
  method GameLoop(board: Board, baselineDepth: nat, hybridDepth: nat, hybridRollouts: nat, baselineIsWhite: bool,
                  rng: Search.Oracle, clock: VsStockfish.Clock)
    returns (baselineTimes: seq<real>, hybridTimes: seq<real>, ghost baselineMoves: seq<string>,
             ghost hybridMoves: seq<string>)
    requires Finite(board.game) && baselineDepth >= 1 && hybridDepth >= 1 && hybridRollouts > 0
    requires board.stack == []
    modifies board
    ensures var e := H2HGame(board.game, baselineDepth, hybridDepth, hybridRollouts, baselineIsWhite, rng);
      board.stack == e.final && Logs(board.game, baselineIsWhite, clock, e) == (baselineTimes, hybridTimes, baselineMoves, hybridMoves)
  {
    var g := board.game;
    baselineMoves, hybridMoves := [], [];
    baselineTimes, hybridTimes := [], [];
    var (baselineColor, hybridColor) := Colors(baselineIsWhite);
    ghost var baseline := Search.Engine(g, BaselineEval, rng, baselineDepth);
    ghost var hybrid := Search.Engine(g, HybridEval(hybridRollouts), rng, hybridDepth);
    ghost var whole := H2HGame(g, baselineDepth, hybridDepth, hybridRollouts, baselineIsWhite, rng);
    ghost var stuck := false;
    while !board.IsGameOver()
      invariant board.game == g && !stuck
      invariant Playout.PlayOut(g, baseline, baselineColor, hybrid, board.stack) == whole
      invariant LogsSoFar(g, baselineIsWhite, clock, board.stack) == (baselineTimes, hybridTimes, baselineMoves, hybridMoves)
      decreases g.maxPlies - |board.stack|
    {
      assert |board.stack| < g.maxPlies;
      var move: Option<Move>;
      var duration := clock(board.stack);
      if board.Turn() == baselineColor {
        move := Search.SelectBestMove(board, baselineDepth, BaselineEval, rng);
        assert move == baseline(board.stack);
        baselineTimes := baselineTimes + [duration];
        baselineMoves := baselineMoves + [MoveLabel(move)];
      } else {
        move := Search.SelectBestMove(board, hybridDepth, HybridEval(hybridRollouts), rng);
        assert move == hybrid(board.stack);
        hybridTimes := hybridTimes + [duration];
        hybridMoves := hybridMoves + [MoveLabel(move)];
      }
      if move.None? {
        assert whole == Playout.Ending(board.stack, true);
        LogsAtEnd(g, baselineIsWhite, clock, whole);
        stuck := true;
        break;
      }
      LogsSoFarSnoc(g, baselineIsWhite, clock, board.stack, move.value);
      board.Push(move.value);
    }
    if !stuck {
      assert whole == Playout.Ending(board.stack, false);
      LogsAtEnd(g, baselineIsWhite, clock, whole);
    }
  }

  /** The four logs after the plies of `hist`: each side's search times and
      UCI moves for the plies it made. */
  function LogsSoFar(g: Game, baselineIsWhite: bool, clock: VsStockfish.Clock, hist: History)
    : (seq<real>, seq<real>, seq<string>, seq<string>)
  {
    var (baselineColor, hybridColor) := Colors(baselineIsWhite);
    (Playout.TimesOf(g, baselineColor, clock, hist, 0), Playout.TimesOf(g, hybridColor, clock, hist, 0),
     UciList(Playout.PliesBy(g, baselineColor, hist, 0)), UciList(Playout.PliesBy(g, hybridColor, hist, 0)))
  }

  /** The four logs of a game loop that ended at `e`. */
  function Logs(g: Game, baselineIsWhite: bool, clock: VsStockfish.Clock, e: Playout.Ending)
    : (seq<real>, seq<real>, seq<string>, seq<string>)
  {
    var (baselineColor, hybridColor) := Colors(baselineIsWhite);
    (SideTimes(g, baselineColor, clock, e), SideTimes(g, hybridColor, clock, e),
     SideMoves(g, baselineColor, e), SideMoves(g, hybridColor, e))
  }

  /** A ply is logged for the side that made it. */
  lemma LogsSoFarSnoc(g: Game, baselineIsWhite: bool, clock: VsStockfish.Clock, hist: History, m: Move)
    ensures var before := LogsSoFar(g, baselineIsWhite, clock, hist);
      LogsSoFar(g, baselineIsWhite, clock, hist + [m])
        == if g.turn(hist) == Colors(baselineIsWhite).0
           then (before.0 + [clock(hist)], before.1, before.2 + [Uci(m)], before.3)
           else (before.0, before.1 + [clock(hist)], before.2, before.3 + [Uci(m)])
  {
    var (baselineColor, hybridColor) := Colors(baselineIsWhite);
    Playout.Snoc(g, baselineColor, clock, hist, m, 0);
    Playout.Snoc(g, hybridColor, clock, hist, m, 0);
    var bp, hp := Playout.PliesBy(g, baselineColor, hist, 0), Playout.PliesBy(g, hybridColor, hist, 0);
    var bt, ht := Playout.TimesOf(g, baselineColor, clock, hist, 0), Playout.TimesOf(g, hybridColor, clock, hist, 0);
    UciListSnoc(bp, m);
    UciListSnoc(hp, m);
    if g.turn(hist) == baselineColor {
      assert g.turn(hist) != hybridColor;
      assert hp + [] == hp && ht + [] == ht;
    } else {
      assert g.turn(hist) == hybridColor;
      assert bp + [] == bp && bt + [] == bt;
    }
  }

  /** The logs at the end of the loop: those of the plies played, then the
      entries of a last turn without a move. */
  lemma LogsAtEnd(g: Game, baselineIsWhite: bool, clock: VsStockfish.Clock, e: Playout.Ending)
    ensures var sofar := LogsSoFar(g, baselineIsWhite, clock, e.final);
      Logs(g, baselineIsWhite, clock, e)
        == if !e.stuck then sofar
           else if g.turn(e.final) == Colors(baselineIsWhite).0
           then (sofar.0 + [clock(e.final)], sofar.1, sofar.2 + ["None"], sofar.3)
           else (sofar.0, sofar.1 + [clock(e.final)], sofar.2, sofar.3 + ["None"])
  {
    var (baselineColor, hybridColor) := Colors(baselineIsWhite);
    var sofar := LogsSoFar(g, baselineIsWhite, clock, e.final);
    assert sofar.0 + [] == sofar.0 && sofar.1 + [] == sofar.1;
    assert sofar.2 + [] == sofar.2 && sofar.3 + [] == sofar.3;
  }

  lemma UciListSnoc(h: History, m: Move)
    ensures UciList(h + [m]) == UciList(h) + [Uci(m)]
  {
  }

  // ----- Properties of the game -----

  /** Each side's plies are the moves its own search selects. */
  lemma PliesAreSearched(g: Game, baselineDepth: nat, hybridDepth: nat, hybridRollouts: nat, baselineIsWhite: bool,
                         rng: Search.Oracle)
    requires Finite(g) && baselineDepth >= 1 && hybridDepth >= 1 && hybridRollouts > 0
    ensures var e := H2HGame(g, baselineDepth, hybridDepth, hybridRollouts, baselineIsWhite, rng);
      && (forall i :: 0 <= i < |e.final| && g.turn(e.final[..i]) == Colors(baselineIsWhite).0 ==>
            Search.BestMove(g, BaselineEval, rng, e.final[..i], baselineDepth) == Some(e.final[i]))
      && (forall i :: 0 <= i < |e.final| && g.turn(e.final[..i]) == Colors(baselineIsWhite).1 ==>
            Search.BestMove(g, HybridEval(hybridRollouts), rng, e.final[..i], hybridDepth) == Some(e.final[i]))
  {
    var baselineColor := Colors(baselineIsWhite).0;
    var baseline := Search.Engine(g, BaselineEval, rng, baselineDepth);
    var hybrid := Search.Engine(g, HybridEval(hybridRollouts), rng, hybridDepth);
    Playout.PlayOutShape(g, baseline, baselineColor, hybrid, []);
  }

  /** Each side logs exactly one time and one move per turn it had, and the
      two sides' turns together are the plies played plus the turn without a
      move the loop may have stopped on. */
  lemma LogLengths(g: Game, baselineIsWhite: bool, clock: VsStockfish.Clock, e: Playout.Ending)
    ensures var (baselineColor, hybridColor) := Colors(baselineIsWhite);
      && |SideTimes(g, baselineColor, clock, e)| == |SideMoves(g, baselineColor, e)|
      && |SideTimes(g, hybridColor, clock, e)| == |SideMoves(g, hybridColor, e)|
      && |SideMoves(g, baselineColor, e)| + |SideMoves(g, hybridColor, e)| == |e.final| + (if e.stuck then 1 else 0)
  {
    var (baselineColor, hybridColor) := Colors(baselineIsWhite);
    Playout.PliesSplit(g, baselineColor, clock, e.final, 0);
    Playout.PliesSplit(g, hybridColor, clock, e.final, 0);
    assert g.turn(e.final) == baselineColor || g.turn(e.final) == hybridColor;
  }

  /** When every position that is not over has a legal move, neither engine
      is ever left without a move, so the game always ends with an outcome
      and a record. */
  lemma AlwaysPlayedOut(g: Game, baselineDepth: nat, hybridDepth: nat, hybridRollouts: nat, baselineIsWhite: bool,
                        rng: Search.Oracle)
    requires Finite(g) && baselineDepth >= 1 && hybridDepth >= 1 && hybridRollouts > 0 && NoStuckPositions(g)
    ensures !H2HGame(g, baselineDepth, hybridDepth, hybridRollouts, baselineIsWhite, rng).stuck
  {
    var e := H2HGame(g, baselineDepth, hybridDepth, hybridRollouts, baselineIsWhite, rng);
    if e.stuck {
      Search.BestMoveNoneIffNoMoves(g, BaselineEval, rng, e.final, baselineDepth);
      Search.BestMoveNoneIffNoMoves(g, HybridEval(hybridRollouts), rng, e.final, hybridDepth);
    }
  }
}
