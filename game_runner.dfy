/** A batch of games against Stockfish with alternating colours, pooled into
    the experiment summary: the configuration asked for, the engine's win
    rate over the games that finished, and the mean and standard deviation
    of all its move times.

    What differs from game to game (the random draws of the Monte-Carlo
    evaluator, whether Stockfish starts, its replies and the clock) is given
    per game index. Writing the summary to a JSON file is not modelled. */
module GameRunner {
  import opened Chess
  import Search
  import Metrics
  import VsStockfish

  /** In game `i` the engine plays White when `i` is even, Black when odd. */
  function EngineColor(i: nat): (c: Color)
    ensures c == White <==> i % 2 == 0
  {
    if i % 2 == 0 then White else Black
  }

  /** Everything that differs between the games of an experiment, by game index. */
  datatype Trials = Trials(rng: nat -> Search.Oracle, launched: nat -> bool,
                           reply: nat -> VsStockfish.Reply, clock: nat -> VsStockfish.Clock)

  /** The `config` block of the summary. */
  datatype Config = Config(nGames: int, depth: nat, useMC: bool, rolloutCount: nat)

  /** The `metrics` block of the summary. */
  datatype RunMetrics = RunMetrics(winRate: real, avgMoveTime: real, stdMoveTime: real, totalMoves: nat)

  datatype Summary = Summary(config: Config, metrics: RunMetrics)

  /** How `run_experiment` ends: with its summary, or with the exception a
      crashed game raised, which it does not catch. */
  datatype Experiment = Finished(summary: Summary) | Raised(game: nat)

  /** Game `i` of the experiment. */
  function GameAt(g: Game, config: Config, trials: Trials, i: nat): (run: VsStockfish.VsRun)
    requires Finite(g) && config.depth >= 1 && (config.useMC ==> config.rolloutCount > 0)
    ensures run.Completed? ==> run.data.resultScore in {0.0, 0.5, 1.0}
  {
    VsStockfish.GameRun(g, config.depth, Search.EvalConfig(config.useMC, config.rolloutCount), trials.rng(i),
                        EngineColor(i), trials.launched(i), trials.reply(i), trials.clock(i))
  }

  /** The first `k` games, in order. */
  function Games(g: Game, config: Config, trials: Trials, k: nat): (runs: seq<VsStockfish.VsRun>)
    requires Finite(g) && config.depth >= 1 && (config.useMC ==> config.rolloutCount > 0)
    ensures |runs| == k
  {
    if k == 0 then [] else Games(g, config, trials, k - 1) + [GameAt(g, config, trials, k - 1)]
  }

  /** `results`: the scores of the games that finished, in order. */
  function Scores(runs: seq<VsStockfish.VsRun>): seq<real>
  {
    if runs == [] then []
    else
      var last := runs[|runs| - 1];
      Scores(runs[..|runs| - 1]) + (if last.Completed? then [last.data.resultScore] else [])
  }

  /** `all_move_times`: the move times of the games that finished, game
      after game. */
  function MoveTimes(runs: seq<VsStockfish.VsRun>): seq<real>
  {
    if runs == [] then []
    else
      var last := runs[|runs| - 1];
      MoveTimes(runs[..|runs| - 1]) + (if last.Completed? then last.data.engineMoveTimes else [])
  }

  /** No game of `runs` crashed. */
  predicate NoCrash(runs: seq<VsStockfish.VsRun>)
  {
    forall j :: 0 <= j < |runs| ==> !runs[j].Crashed?
  }

  /** Game `j` of the first `k` games is game `j`. */
  lemma {:induction false} GamesAreGameAt(g: Game, config: Config, trials: Trials, k: nat)
    requires Finite(g) && config.depth >= 1 && (config.useMC ==> config.rolloutCount > 0)
    ensures forall j :: 0 <= j < k ==> Games(g, config, trials, k)[j] == GameAt(g, config, trials, j)
  {
    if k > 0 {
      GamesAreGameAt(g, config, trials, k - 1);
      var prev := Games(g, config, trials, k - 1);
      assert Games(g, config, trials, k) == prev + [GameAt(g, config, trials, k - 1)];
    }
  }

  /** The summary of a batch of games none of which crashed. */
  function Summarize(config: Config, runs: seq<VsStockfish.VsRun>, sqrt: real -> real): Summary
  {
    var times := MoveTimes(runs);
    var (avg, std) := Metrics.CalculateStats(times, sqrt);
    Summary(config, RunMetrics(Metrics.CalculateWinrate(Scores(runs)), avg, std, |times|))
  }

  /** `range(n_games)` is empty for a negative count. */
  function GameCount(nGames: int): nat
  {
    if nGames < 0 then 0 else nGames
  }

  /** `run_experiment`: `n_games` games, the engine alternating colours, each
      played with `play_vs_stockfish`; games that could not start are
      skipped, and a crashed game ends the experiment. */
  method RunExperiment(g: Game, nGames: int, engineDepth: nat, useMC: bool, rolloutCount: nat,
                       trials: Trials, sqrt: real -> real)
    returns (result: Experiment)
    requires Finite(g) && engineDepth >= 1 && (useMC ==> rolloutCount > 0)
    ensures var config := Config(nGames, engineDepth, useMC, rolloutCount);
      var n := GameCount(nGames);
      && (result.Raised? ==>
            && result.game < n && GameAt(g, config, trials, result.game).Crashed?
            && forall j :: 0 <= j < result.game ==> !GameAt(g, config, trials, j).Crashed?)
      && (result.Finished? ==>
            && (forall j :: 0 <= j < n ==> !GameAt(g, config, trials, j).Crashed?)
            && result.summary == Summarize(config, Games(g, config, trials, n), sqrt))
  {
    var config := Config(nGames, engineDepth, useMC, rolloutCount);
    var n := GameCount(nGames);
    var crash, results, allMoveTimes := PlayGames(g, config, trials, n);
    if crash.Some? {
      GamesAreGameAt(g, config, trials, crash.value);
      return Raised(crash.value);
    }
    GamesAreGameAt(g, config, trials, n);
    var (avgTime, stdTime) := Metrics.CalculateStats(allMoveTimes, sqrt);
    var winRate := Metrics.CalculateWinrate(results);
    result := Finished(Summary(config, RunMetrics(winRate, avgTime, stdTime, |allMoveTimes|)));
  }

  /** The loop of `run_experiment`: games `0` to `n - 1` in order, pooling
      the scores and move times of those that finished, until one crashes. */
  method PlayGames(g: Game, config: Config, trials: Trials, n: nat)
    returns (crash: Option<nat>, results: seq<real>, allMoveTimes: seq<real>)
    requires Finite(g) && config.depth >= 1 && (config.useMC ==> config.rolloutCount > 0)
    ensures crash.Some? ==>
      && crash.value < n && GameAt(g, config, trials, crash.value).Crashed?
      && NoCrash(Games(g, config, trials, crash.value))
    ensures crash.None? ==>
      && NoCrash(Games(g, config, trials, n))
      && results == Scores(Games(g, config, trials, n))
      && allMoveTimes == MoveTimes(Games(g, config, trials, n))
  {
    var ev := Search.EvalConfig(config.useMC, config.rolloutCount);
    results, allMoveTimes := [], [];
    for i := 0 to n
      invariant NoCrash(Games(g, config, trials, i))
      invariant results == Scores(Games(g, config, trials, i))
      invariant allMoveTimes == MoveTimes(Games(g, config, trials, i))
    {
      var gameData, released := VsStockfish.PlayVsStockfish(g, config.depth, ev, trials.rng(i), EngineColor(i),
                                                            trials.launched(i), trials.reply(i), trials.clock(i));
      assert gameData == GameAt(g, config, trials, i);
      if gameData.Crashed? {
        return Some(i), results, allMoveTimes;
      }
      assert Games(g, config, trials, i + 1) == Games(g, config, trials, i) + [gameData];
      PoolOne(Games(g, config, trials, i), gameData);
      if gameData.Completed? {
        results := results + [gameData.data.resultScore];
        allMoveTimes := allMoveTimes + gameData.data.engineMoveTimes;
      }
    }
    crash := None;
  }

  // ----- Properties of the pooled results -----

  /** Pooling keeps the games' order: the scores and move times of two
      batches are those of the first followed by those of the second. A game
      that did not start contributes nothing, and a finished game exactly its
      score and its move times. */
  lemma {:induction false} PoolingAppends(a: seq<VsStockfish.VsRun>, b: seq<VsStockfish.VsRun>)
    ensures Scores(a + b) == Scores(a) + Scores(b)
    ensures MoveTimes(a + b) == MoveTimes(a) + MoveTimes(b)
    decreases |b|
  {
    if b == [] {
      assert a + b == a;
    } else {
      var init := b[..|b| - 1];
      assert (a + b)[..|a + b| - 1] == a + init;
      PoolingAppends(a, init);
    }
  }

  /** At most one score per game. */
  lemma {:induction false} ScoresAtMostGames(runs: seq<VsStockfish.VsRun>)
    ensures |Scores(runs)| <= |runs|
  {
    if runs != [] {
      ScoresAtMostGames(runs[..|runs| - 1]);
    }
  }

  /** The number of moves timed is the total over the finished games. */
  function TimedMoves(runs: seq<VsStockfish.VsRun>): nat
  {
    if runs == [] then 0
    else
      var last := runs[|runs| - 1];
      TimedMoves(runs[..|runs| - 1]) + (if last.Completed? then |last.data.engineMoveTimes| else 0)
  }

  lemma {:induction false} TotalMovesCounted(runs: seq<VsStockfish.VsRun>)
    ensures |MoveTimes(runs)| == TimedMoves(runs)
  {
    if runs != [] {
      TotalMovesCounted(runs[..|runs| - 1]);
    }
  }

  /** One more game adds its score and its move times when it finished,
      nothing otherwise. */
  lemma PoolOne(runs: seq<VsStockfish.VsRun>, r: VsStockfish.VsRun)
    ensures Scores(runs + [r]) == Scores(runs) + (if r.Completed? then [r.data.resultScore] else [])
    ensures MoveTimes(runs + [r]) == MoveTimes(runs) + (if r.Completed? then r.data.engineMoveTimes else [])
  {
    assert (runs + [r])[..|runs|] == runs;
  }

  /** Every finished game scores 1.0, 0.5 or 0.0, so the win rate of an
      experiment lies between 0 and 1. */
  lemma WinRateInRange(g: Game, config: Config, trials: Trials, k: nat, sqrt: real -> real)
    requires Finite(g) && config.depth >= 1 && (config.useMC ==> config.rolloutCount > 0)
    ensures 0.0 <= Summarize(config, Games(g, config, trials, k), sqrt).metrics.winRate <= 1.0
  {
    ScoresValid(g, config, trials, k);
    Metrics.WinrateInRange(Scores(Games(g, config, trials, k)));
  }

  /** The scores of the first `k` games are all 1.0, 0.5 or 0.0. */
  lemma ScoresValid(g: Game, config: Config, trials: Trials, k: nat)
    requires Finite(g) && config.depth >= 1 && (config.useMC ==> config.rolloutCount > 0)
    ensures forall i :: 0 <= i < |Scores(Games(g, config, trials, k))| ==>
              Scores(Games(g, config, trials, k))[i] in {0.0, 0.5, 1.0}
  {
    GamesAreGameAt(g, config, trials, k);
    ScoresOfValidRuns(Games(g, config, trials, k));
  }

  /** Pooling takes each score from a finished game, so scores that are
      all 1.0, 0.5 or 0.0 pool into such a list. */
  lemma {:induction false} ScoresOfValidRuns(runs: seq<VsStockfish.VsRun>)
    requires forall j :: 0 <= j < |runs| && runs[j].Completed? ==> runs[j].data.resultScore in {0.0, 0.5, 1.0}
    ensures forall i :: 0 <= i < |Scores(runs)| ==> Scores(runs)[i] in {0.0, 0.5, 1.0}
  {
    if runs != [] {
      var init, last := runs[..|runs| - 1], runs[|runs| - 1];
      ScoresOfValidRuns(init);
      var s0, s := Scores(init), Scores(runs);
      assert s == s0 + (if last.Completed? then [last.data.resultScore] else []);
      forall i | 0 <= i < |s|
        ensures s[i] in {0.0, 0.5, 1.0}
      {
        if i < |s0| {
          assert s[i] == s0[i];
        }
      }
    }
  }
}
