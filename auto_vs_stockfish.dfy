/** One game of the engine against Stockfish from the standard start
    position: the engine searches on its turns, Stockfish replies on the
    others, and the game is scored from the engine's side.

    Stockfish is a function from positions to its reply, launching it is a
    flag, and the clock that times each search is a function of the position
    searched. */
module VsStockfish {
  import opened Chess
  import Search
  import Playout

  /** Stockfish's reply in a position; `None` when its result carries no move. */
  type Reply = Player

  /** How long the engine's search takes in a position. */
  type Clock = History -> real

  /** `result_score`: 1.0 when the engine won, 0.5 for a draw, 0.0 for a loss
      or when the game has no outcome. */
  function ResultScore(outcome: Option<GameOutcome>, engineColor: Color): (score: real)
    ensures score == 1.0 <==> outcome.Some? && outcome.value.winner == Some(engineColor)
    ensures score == 0.5 <==> outcome.Some? && outcome.value.winner == None
    ensures score == 0.0 <==> outcome.None? || outcome.value.winner == Some(Opponent(engineColor))
    ensures score in {0.0, 0.5, 1.0}
  {
    match outcome
    case None => 0.0
    case Some(o) =>
      match o.winner
      case None => 0.5
      case Some(c) => if c == engineColor then 1.0 else assert c.White? || c.Black?; 0.0
  }

  /** `str(outcome.termination)`, or "Unknown" when the game has no outcome. */
  function TerminationLabel(outcome: Option<GameOutcome>): string
  {
    if outcome.Some? then outcome.value.termination else "Unknown"
  }

  /** The dictionary `play_vs_stockfish` returns. The final position stands
      for its FEN. */
  datatype GameData = GameData(resultScore: real, engineMoveTimes: seq<real>, finalPosition: History, termination: string)

  /** How a call ends: Stockfish could not be started (`None`), a Stockfish
      reply without a move made `board.push` raise, or the game data. */
  datatype VsRun = NotLaunched | Crashed(position: History) | Completed(data: GameData)

  /** Why the game loop stopped: the game was over, the engine found no
      move, or Stockfish's reply carried none. */
  datatype Stop = GameOver | EngineNone | ReplyNone

  /** Why a game loop that ended at `e` stopped. */
  function StopOf(g: Game, e: Playout.Ending, engineColor: Color): Stop
  {
    if !e.stuck then GameOver else if g.turn(e.final) == engineColor then EngineNone else ReplyNone
  }

  /** The engine's search times: one per engine turn, in order, including a
      last turn on which it found no move. */
  function EngineTimes(g: Game, engineColor: Color, clock: Clock, e: Playout.Ending): seq<real>
  {
    Playout.TimesOf(g, engineColor, clock, e.final, 0)
      + (if StopOf(g, e, engineColor) == EngineNone then [clock(e.final)] else [])
  }

  /** The game data of a game loop that ended at `e`. */
  function Report(g: Game, e: Playout.Ending, engineColor: Color, clock: Clock): GameData
  {
    var outcome := Outcome(g, e.final);
    GameData(ResultScore(outcome, engineColor), EngineTimes(g, engineColor, clock, e), e.final, TerminationLabel(outcome))
  }

  /** What `play_vs_stockfish` ends with: nothing when Stockfish could not
      be started, the crash of a reply without a move, or the game data. */
  function GameRun(g: Game, depth: nat, ev: Search.EvalConfig, rng: Search.Oracle, engineColor: Color,
                   launched: bool, reply: Reply, clock: Clock): (run: VsRun)
    requires Finite(g) && depth >= 1 && Search.ValidEval(ev)
    ensures run.NotLaunched? <==> !launched
    ensures run.Completed? ==> run.data.resultScore in {0.0, 0.5, 1.0}
  {
    if !launched then NotLaunched
    else
      var e := Playout.PlayOut(g, Search.Engine(g, ev, rng, depth), engineColor, reply, []);
      if StopOf(g, e, engineColor) == ReplyNone then Crashed(e.final) else Completed(Report(g, e, engineColor, clock))
  }

  /** `play_vs_stockfish`. `launched` says whether Stockfish started;
      `released` records that `stockfish.quit()` ran. The engine plays
      `select_best_move` with the given settings, Stockfish plays `reply`. */
  method PlayVsStockfish(g: Game, depth: nat, ev: Search.EvalConfig, rng: Search.Oracle, engineColor: Color,
                         launched: bool, reply: Reply, clock: Clock)
    returns (run: VsRun, ghost released: bool)
    requires Finite(g) && depth >= 1 && Search.ValidEval(ev)
    ensures launched ==> released
    ensures run == GameRun(g, depth, ev, rng, engineColor, launched, reply, clock)
  {
    var board := new Board(g, []);
    var engineMoveTimes: seq<real> := [];
    released := false;
    if !launched {
      return NotLaunched, released;
    }
    ghost var engine := Search.Engine(g, ev, rng, depth);
    ghost var whole := Playout.PlayOut(g, engine, engineColor, reply, []);
    var crashed := false;
    while !board.IsGameOver()
      invariant board.game == g && !crashed
      invariant Playout.PlayOut(g, engine, engineColor, reply, board.stack) == whole
      invariant engineMoveTimes == Playout.TimesOf(g, engineColor, clock, board.stack, 0)
      decreases g.maxPlies - |board.stack|
    {
      assert |board.stack| < g.maxPlies;
      var move: Option<Move>;
      if board.Turn() == engineColor {
        move := Search.SelectBestMove(board, depth, ev, rng);
        assert move == engine(board.stack);
        var duration := clock(board.stack);
        engineMoveTimes := engineMoveTimes + [duration];
        if move.None? {
          break;
        }
      } else {
        move := reply(board.stack);
        if move.None? {
          crashed := true;
          break;
        }
      }
      Playout.Snoc(g, engineColor, clock, board.stack, move.value, 0);
      board.Push(move.value);
    }
    released := true;
    if crashed {
      return Crashed(board.stack), released;
    }
    var outcome := Outcome(g, board.stack);
    var resultScore := 0.0;
    if outcome.Some? {
      if outcome.value.winner == Some(engineColor) {
        resultScore := 1.0;
      } else if outcome.value.winner.None? {
        resultScore := 0.5;
      } else {
        resultScore := 0.0;
      }
    }
    var termination := if outcome.Some? then outcome.value.termination else "Unknown";
    run := Completed(GameData(resultScore, engineMoveTimes, board.stack, termination));
  }

  // ----- Properties of the game -----

  /** Every ply of the engine is the move its search selects in that
      position, every other ply is Stockfish's reply, and the engine logs one
      search time per engine ply, plus one for a last turn without a move. */
  lemma PliesOfTheGame(g: Game, depth: nat, ev: Search.EvalConfig, rng: Search.Oracle, engineColor: Color,
                       reply: Reply, clock: Clock)
    requires Finite(g) && depth >= 1 && Search.ValidEval(ev)
    ensures var e := Playout.PlayOut(g, Search.Engine(g, ev, rng, depth), engineColor, reply, []);
      && (forall i :: 0 <= i < |e.final| && g.turn(e.final[..i]) == engineColor ==>
            Search.BestMove(g, ev, rng, e.final[..i], depth) == Some(e.final[i]))
      && (forall i :: 0 <= i < |e.final| && g.turn(e.final[..i]) != engineColor ==>
            reply(e.final[..i]) == Some(e.final[i]))
      && |EngineTimes(g, engineColor, clock, e)|
           == |Playout.PliesBy(g, engineColor, e.final, 0)| + (if StopOf(g, e, engineColor) == EngineNone then 1 else 0)
  {
    var engine := Search.Engine(g, ev, rng, depth);
    var e := Playout.PlayOut(g, engine, engineColor, reply, []);
    Playout.PlayOutShape(g, engine, engineColor, reply, []);
    Playout.PliesSplit(g, engineColor, clock, e.final, 0);
    forall i | 0 <= i < |e.final| && g.turn(e.final[..i]) == engineColor
      ensures Search.BestMove(g, ev, rng, e.final[..i], depth) == Some(e.final[i])
    {
      assert Playout.Choice(g, engine, engineColor, reply, e.final[..i]) == Some(e.final[i]);
    }
  }

  /** When every position that is not over has a legal move, the engine's
      search always finds a move on its turn. */
  lemma EngineNeverStuck(g: Game, depth: nat, ev: Search.EvalConfig, rng: Search.Oracle, engineColor: Color,
                         reply: Reply)
    requires Finite(g) && depth >= 1 && Search.ValidEval(ev) && NoStuckPositions(g)
    ensures StopOf(g, Playout.PlayOut(g, Search.Engine(g, ev, rng, depth), engineColor, reply, []), engineColor)
            != EngineNone
  {
    var e := Playout.PlayOut(g, Search.Engine(g, ev, rng, depth), engineColor, reply, []);
    if e.stuck && g.turn(e.final) == engineColor {
      Search.BestMoveNoneIffNoMoves(g, ev, rng, e.final, depth);
    }
  }

  /** A game that ends at game over is scored from its outcome. */
  lemma ScoreOfFinishedGame(g: Game, e: Playout.Ending, engineColor: Color, clock: Clock)
    requires g.gameOver(e.final)
    ensures var d := Report(g, e, engineColor, clock);
      && (d.resultScore == 1.0 <==> g.winner(e.final) == Some(engineColor))
      && (d.resultScore == 0.5 <==> g.winner(e.final) == None)
      && (d.resultScore == 0.0 <==> g.winner(e.final) == Some(Opponent(engineColor)))
      && d.termination == g.termination(e.final)
  {
  }
}
