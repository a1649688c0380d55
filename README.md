# monte_dan_minimax in Dafny

A model of the chess engine in `engine-chess/` and of the harness that measures it. The model covers:

- **Engine search.** An alpha-beta minimax searches on one of two evaluators: a static material count, or the mean of random Monte-Carlo playouts.
- **Game loops.** One loop plays the engine against Stockfish. The head-to-head loop plays the static ("baseline") configuration against the Monte-Carlo ("hybrid") configuration.
- **Experiment runner.** It plays a batch of games against Stockfish with alternating colours and pools the results.
- **Metrics.** The win rate and the move-time statistics of a batch.
- **Stockfish checks.** A validity check and an `id name` / `id author` parser, both over the text Stockfish prints in answer to `uci`.

The rules of chess belong to the python-chess library, which is not part of this model. A `Game` bundles those rules as functions of the move history played from the start position: the legal moves, game over, checkmate, the side to move, the piece placement, the winner and the termination reason.

- A `Board` is a class over such a game, holding a stack of moves. `push`, `pop` and `copy` act on that stack.
- Every loop that changes state is a method. Each method is proved against a specification function: `Value` for `minimax`, `BestMove` for `select_best_move`, `PlayOut` for the game loops, `Games` for the experiment and `Info` for the `id` parser. The lemmas about those functions state what the code promises.

Modules, one per source file:

| module | file | models |
|---|---|---|
| `Chess` | `chess.dfy` | colours, pieces, moves, histories, the `Game` rules, UCI move strings, the `Board` class |
| `StaticEvaluator` | `evaluator_static.dfy` | `evaluate_static` |
| `MonteCarlo` | `evaluator_mc.dfy` | `simulate_random`, `evaluate_mc` |
| `Search` | `minimax_ab.dfy` | `minimax`, `select_best_move` |
| `Playout` | `playout.dfy` | the game loop shared by `play_vs_stockfish` and `play_h2h_game` |
| `VsStockfish` | `auto_vs_stockfish.dfy` | `play_vs_stockfish` |
| `HeadToHead` | `h2h.dfy` | `play_h2h_game` |
| `Metrics` | `metrics.dfy` | `calculate_winrate`, `calculate_stats` |
| `GameRunner` | `game_runner.dfy` | `run_experiment` |
| `StockfishConfig` | `stockfish_config.dfy` | `validate_stockfish`, `get_stockfish_info` (output parsing) |

Conventions used throughout the model:

- **Players are functions.** A player is a function from positions to `Option<Move>`. This covers the engine, which is `select_best_move` with fixed settings, and Stockfish, which is a reply function.
- **Games terminate.** A game is finite because of a ply bound `maxPlies`: `Finite(g)` says every history that long is game over, as chess's 75-move and fivefold-repetition rules guarantee.
- **Legal moves exist.** `NoStuckPositions(g)` is the chess fact that a position which is not over has a legal move.
- **Randomness is an oracle.** Each Monte-Carlo playout reads its random draws from an oracle keyed by the position it evaluates.
- **Clocks are parameters.** Each search time is a function of the position searched.
- **Stockfish's output is given.** The Stockfish binary is modelled by the outcome of running it.

## Model

| member | source | states |
|---|---|---|
| Chess.Outcome | engine-chess/simulation/auto_vs_stockfish.py:63 | a position has an outcome exactly when the game is over |
| Chess.ResultString | engine-chess/minimax/evaluator_mc.py:21 | the result string is "*" exactly while the game is not over |
| Chess.Uci | engine-chess/simulation/h2h.py:45 | a UCI move string has four characters, five for a promotion |
| Chess.UciInjective | engine-chess/simulation/h2h.py:83 | different moves have different UCI strings, so the logged move list determines the moves |
| Chess.Board.constructor | engine-chess/simulation/auto_vs_stockfish.py:26 | a new board is at the given position of the given game |
| Chess.Board.Push | engine-chess/minimax/minimax_ab.py:24 | `push` appends the move to the move stack and changes nothing else |
| Chess.Board.Pop | engine-chess/minimax/minimax_ab.py:26 | `pop` removes the last move from the stack and returns it |
| Chess.Board.Copy | engine-chess/minimax/evaluator_mc.py:9 | `copy` gives a fresh board at the same position, so the playout does not disturb the searched board |
| StaticEvaluator.PieceValue | engine-chess/minimax/evaluator_static.py:9-16 | every piece is worth at least a pawn (10), and exactly the king is worth 900 |
| StaticEvaluator.EvaluateStatic | engine-chess/minimax/evaluator_static.py:18-37 | the loop over the 64 squares computes the static score: ∓9999 for checkmate, 0 for another game over, else the material balance |
| StaticEvaluator.CheckmateScores | engine-chess/minimax/evaluator_static.py:23-25 | a mate scores -9999 when White is to move (White is mated) and 9999 when Black is, so the sign favours the winner |
| StaticEvaluator.DrawScoresZero | engine-chess/minimax/evaluator_static.py:26 | a game over that is not checkmate scores 0 |
| StaticEvaluator.MaterialIsWhiteMinusBlack | engine-chess/minimax/evaluator_static.py:28-37 | the material score is White's total piece value minus Black's |
| StaticEvaluator.MaterialAppend | engine-chess/minimax/evaluator_static.py:28-37 | the material sum is additive over any split of the squares |
| StaticEvaluator.RemovePiece | engine-chess/minimax/evaluator_static.py:28-37 | removing a piece lowers the score by its signed value |
| StaticEvaluator.EmptySquaresScoreZero | engine-chess/minimax/evaluator_static.py:28-37 | an empty board scores 0 |
| StaticEvaluator.SwapNegates | engine-chess/minimax/evaluator_static.py:28-37 | swapping the colours of all pieces negates the score |
| StaticEvaluator.InitialPositionBalanced | engine-chess/minimax/evaluator_static.py:28-37 | the start position scores 0 |
| StaticEvaluator.MissingBlackPawnFavoursWhite | engine-chess/minimax/evaluator_static.py:28-37 | the start position without one black pawn scores +10 |
| MonteCarlo.Choose | engine-chess/minimax/evaluator_mc.py:16 | the random choice is one of the legal moves offered |
| MonteCarlo.SimulateRandom | engine-chess/minimax/evaluator_mc.py:8-28 | the playout loop returns the playout score of its random line, which is 1.0, -1.0 or 0.0 |
| MonteCarlo.PlayoutScoreValues | engine-chess/minimax/evaluator_mc.py:20-28 | a playout scores 1.0, -1.0 or 0.0 |
| MonteCarlo.PlayoutScoreMeaning | engine-chess/minimax/evaluator_mc.py:20-28 | a playout scores 1.0 exactly when it ends in a White win and -1.0 exactly when it ends in a Black win |
| MonteCarlo.RolloutShape | engine-chess/minimax/evaluator_mc.py:12-18 | a playout extends the position by at most `max_steps` plies, each one legal; it stops short only at game over or when there is no legal move |
| MonteCarlo.RolloutSumBounds | engine-chess/minimax/evaluator_mc.py:31-33 | the total of `n` playout scores lies between -n and n |
| MonteCarlo.MCValue | engine-chess/minimax/evaluator_mc.py:30-35 | the Monte-Carlo value, the mean playout score, lies between -1 and 1 |
| MonteCarlo.EvaluateMC | engine-chess/minimax/evaluator_mc.py:30-35 | the rollout loop returns the Monte-Carlo value of the position |
| Search.LeafValue | engine-chess/minimax/minimax_ab.py:13-17 | a leaf is scored by the static evaluator, or by the Monte-Carlo value times 1000, which lies within ±1000 |
| Search.Evaluate | engine-chess/minimax/minimax_ab.py:13-17 | the leaf evaluation returns the leaf value |
| Search.Minimax | engine-chess/minimax/minimax_ab.py:11-42 | `minimax` leaves the board as it found it. At depth 0 or game over it returns the leaf value. Otherwise its result is a fail-soft bound of the true minimax value inside (alpha, beta), and with the full window it equals the minimax value |
| Search.MaxNode | engine-chess/minimax/minimax_ab.py:21-31 | the maximizing loop restores the board and returns a fail-soft bound of the largest child value |
| Search.MinNode | engine-chess/minimax/minimax_ab.py:32-42 | the minimizing loop restores the board and returns a fail-soft bound of the smallest child value |
| Search.MaxOfBounds | engine-chess/minimax/minimax_ab.py:21-31 | the value of a maximizing node is at least every child's value |
| Search.MinOfBounds | engine-chess/minimax/minimax_ab.py:32-42 | the value of a minimizing node is at most every child's value |
| Search.MaxNodeStep | engine-chess/minimax/minimax_ab.py:24-30 | one iteration of the maximizing loop keeps its invariant, and a beta cut-off leaves a fail-soft result |
| Search.MinNodeStep | engine-chess/minimax/minimax_ab.py:35-41 | one iteration of the minimizing loop keeps its invariant, and an alpha cut-off leaves a fail-soft result |
| Search.FailSoftFullWindow | engine-chess/minimax/minimax_ab.py:11-42 | a fail-soft result for the window (-inf, +inf) is the exact value |
| Search.ValueIsFinite | engine-chess/minimax/minimax_ab.py:11-42 | when every position that is not over has a legal move, the minimax value is never infinite |
| Search.Pick | engine-chess/minimax/minimax_ab.py:57-71 | the root scan's chosen index holds the chosen value; with no index chosen, the value is the initial -inf/+inf |
| Search.RootStep | engine-chess/minimax/minimax_ab.py:57-71 | at the root, a child's fail-soft result improves on the best so far exactly when its true value does, and then equals it |
| Search.PickIsFirstBest | engine-chess/minimax/minimax_ab.py:62-71 | the root scan picks the extreme child value; no child beats it, and the chosen child strictly beats every earlier one, so the first best move wins ties |
| Search.BestIndex | engine-chess/minimax/minimax_ab.py:44-73 | the chosen index is that of a legal move |
| Search.BestMove | engine-chess/minimax/minimax_ab.py:44-73 | the move selected is legal, and there is none when there are no legal moves |
| Search.SelectBestMove | engine-chess/minimax/minimax_ab.py:44-73 | `select_best_move` leaves the board as it found it and returns the best move (first best, by the side to move) |
| Search.BestMoveIsFirstBest | engine-chess/minimax/minimax_ab.py:44-73 | the move selected is the first legal move whose child value is best for the side to move, and that value is the position's minimax value |
| Search.BestMoveNoneIffNoMoves | engine-chess/minimax/minimax_ab.py:44-73 | when every position that is not over has a legal move, the search returns no move exactly when there are no legal moves |
| Search.TiedMovesPickFirst | engine-chess/minimax/minimax_ab.py:57-73 | when every root move has the same finite value, the first legal move is returned, for either side to move |
| Search.FirstMateIsChosen | engine-chess/minimax/minimax_ab.py:57-64 | at depth 1 with the static evaluator, White picks the first move that mates when no earlier move scores as high |
| Playout.PlayOut | engine-chess/simulation/auto_vs_stockfish.py:38-56 | the game loop stops early exactly when the game is not over, and then the side to move had no move |
| Playout.Snoc | engine-chess/simulation/h2h.py:35-61 | pushing a ply logs it, and its search time, for the side that made it only |
| Playout.PlayOutShape | engine-chess/simulation/auto_vs_stockfish.py:38-56 | the loop only extends the position; every ply it adds is the choice of the side to move in a position not yet over |
| Playout.PliesSplit | engine-chess/simulation/h2h.py:35-61 | each ply is made by one side or the other, and each side logs one time per ply |
| VsStockfish.ResultScore | engine-chess/simulation/auto_vs_stockfish.py:62-71 | the score is 1.0 exactly for an engine win and 0.5 exactly for a draw; it is 0.0 exactly for a loss or a missing outcome |
| VsStockfish.GameRun | engine-chess/simulation/auto_vs_stockfish.py:11-77 | the game yields nothing exactly when Stockfish could not be started, and a finished game's score is 1.0, 0.5 or 0.0 |
| VsStockfish.PlayVsStockfish | engine-chess/simulation/auto_vs_stockfish.py:11-77 | the method plays exactly the game `GameRun` describes, and it always releases a started Stockfish |
| VsStockfish.PliesOfTheGame | engine-chess/simulation/auto_vs_stockfish.py:38-56 | every engine ply is the move its search selects and every other ply is Stockfish's reply; the engine logs one time per engine ply, plus one for a final turn without a move |
| VsStockfish.EngineNeverStuck | engine-chess/simulation/auto_vs_stockfish.py:49-51 | when every position that is not over has a legal move, the early exit on a missing engine move never happens |
| VsStockfish.ScoreOfFinishedGame | engine-chess/simulation/auto_vs_stockfish.py:62-77 | a game that ends at game over is scored from its winner, with the outcome's termination reason |
| HeadToHead.Colors | engine-chess/simulation/h2h.py:29-30 | the baseline is White exactly when `baseline_is_white`, and the hybrid has the other colour |
| HeadToHead.WinnerLabel | engine-chess/simulation/h2h.py:70-74 | the label is "Baseline" exactly when the baseline's colour won, "Hybrid" exactly when the hybrid's did, and "Draw" exactly when nobody won |
| HeadToHead.PlayH2H | engine-chess/simulation/h2h.py:10-84 | the record of the game the two searches play, with each side's logged moves; a game stopped on a missing move has no outcome and fails |
| HeadToHead.GameLoop | engine-chess/simulation/h2h.py:35-61 | the loop leaves the board at the end of the game, with each side's search times and move log |
| HeadToHead.LogsSoFarSnoc | engine-chess/simulation/h2h.py:41-61 | one more ply adds one time and one UCI move to the log of the side that made it |
| HeadToHead.UciListSnoc | engine-chess/simulation/h2h.py:83 | the UCI list of a longer game extends that of the shorter |
| HeadToHead.PliesAreSearched | engine-chess/simulation/h2h.py:36-57 | the baseline's plies are its static-evaluation search's choices, and the hybrid's plies are its Monte-Carlo search's choices |
| HeadToHead.LogLengths | engine-chess/simulation/h2h.py:44-56 | each side logs as many times as moves, and together they log one move per ply, plus "None" for a final turn without a move |
| HeadToHead.AlwaysPlayedOut | engine-chess/simulation/h2h.py:58-59 | when every position that is not over has a legal move, the loop never stops on a missing move |
| Metrics.CalculateWinrate | engine-chess/simulation/metrics.py:19-30 | the win rate is 0.0 for no games; otherwise it times the number of games is the sum of the scores |
| Metrics.CalculateStats | engine-chess/simulation/metrics.py:41-47 | the stats are (0.0, 0.0) for no times; one time gives itself with deviation 0.0; more give the mean and the square root of the sample variance |
| Metrics.SumConcat | engine-chess/simulation/metrics.py:30 | the sum of two lists joined is the sum of their sums |
| Metrics.SumPermutation | engine-chess/simulation/metrics.py:30 | the sum does not depend on the order of the list |
| Metrics.SumBounds | engine-chess/simulation/metrics.py:30 | common bounds on the elements bound the sum |
| Metrics.MeanWithinBounds | engine-chess/simulation/metrics.py:47 | the mean respects any common bounds of the values |
| Metrics.MeanBetweenExtremes | engine-chess/simulation/metrics.py:47 | some value is at most the mean and some value is at least it |
| Metrics.WinrateInRange | engine-chess/simulation/metrics.py:19-30 | scores of 1.0, 0.5 and 0.0 give a win rate between 0 and 1 |
| Metrics.WinrateOrderIndependent | engine-chess/simulation/metrics.py:19-30 | the win rate does not depend on the order of the results |
| Metrics.SampleVarianceNonNegative | engine-chess/simulation/metrics.py:47 | the sample variance under the square root is never negative |
| GameRunner.EngineColor | engine-chess/simulation/game_runner.py:22 | the engine plays White exactly in the even-numbered games |
| GameRunner.GameAt | engine-chess/simulation/game_runner.py:24-30 | each game of the batch is `play_vs_stockfish` with that game's colour, and a finished game scores 1.0, 0.5 or 0.0 |
| GameRunner.Games | engine-chess/simulation/game_runner.py:18-30 | the first `k` games are `k` runs |
| GameRunner.GamesAreGameAt | engine-chess/simulation/game_runner.py:18-30 | run `j` of the batch is game `j` |
| GameRunner.RunExperiment | engine-chess/simulation/game_runner.py:9-59 | `run_experiment` raises at the first crashed game; otherwise no game crashed and the summary pools all the games in order |
| GameRunner.PlayGames | engine-chess/simulation/game_runner.py:18-37 | the loop pools the scores and move times of the finished games in order, skipping games that did not start, until one crashes |
| GameRunner.PoolOne | engine-chess/simulation/game_runner.py:32-34 | one more game adds its score and move times when it finished, and nothing when it did not start |
| GameRunner.PoolingAppends | engine-chess/simulation/game_runner.py:32-34 | pooling two batches gives the first batch's scores and times followed by the second's |
| GameRunner.ScoresAtMostGames | engine-chess/simulation/game_runner.py:32-33 | there is at most one score per game |
| GameRunner.TotalMovesCounted | engine-chess/simulation/game_runner.py:53 | `total_moves` is the number of engine moves over the finished games |
| GameRunner.ScoresOfValidRuns | engine-chess/simulation/game_runner.py:32-33 | when every finished run scores 1.0, 0.5 or 0.0, so does every pooled score |
| GameRunner.ScoresValid | engine-chess/simulation/game_runner.py:32-33 | every score of an experiment is 1.0, 0.5 or 0.0 |
| GameRunner.WinRateInRange | engine-chess/simulation/game_runner.py:40 | an experiment's win rate lies between 0 and 1 |
| StockfishConfig.Contains | engine-chess/stockfish_config.py:84 | `pat in s` holds exactly when `pat` occurs in `s` at some index |
| StockfishConfig.ValidateStockfish | engine-chess/stockfish_config.py:61-87 | the binary is valid exactly when it ran and its output contains "uciok"; a missing path or an exception gives False |
| StockfishConfig.SplitLines | engine-chess/stockfish_config.py:113 | `split('\n')` gives at least one piece, none holding a newline, and joined with newlines they give back the text |
| StockfishConfig.Before | engine-chess/stockfish_config.py:115 | `split(sep)` keeps the text up to the first occurrence of the separator, or all of it when there is none |
| StockfishConfig.AfterPrefix | engine-chess/stockfish_config.py:115 | `split(prefix)[1]` on a line that starts with the prefix is the text right after it, up to the next occurrence |
| StockfishConfig.TrimStart | engine-chess/stockfish_config.py:115 | the leading strip drops only whitespace, and what remains does not start with whitespace |
| StockfishConfig.TrimEnd | engine-chess/stockfish_config.py:115 | the trailing strip drops only whitespace, and what remains does not end with whitespace |
| StockfishConfig.Strip | engine-chess/stockfish_config.py:115 | a stripped value neither starts nor ends with whitespace |
| StockfishConfig.StripIdempotent | engine-chess/stockfish_config.py:115 | stripping a stripped value changes nothing |
| StockfishConfig.Tag | engine-chess/stockfish_config.py:114-117 | a line sets "name" or "author" only when it starts with that key's `id` prefix; it sets nothing exactly when it starts with neither |
| StockfishConfig.TagOfLine | engine-chess/stockfish_config.py:114-117 | no line starts with both prefixes, so a line sets a key exactly when it starts with that key's prefix |
| StockfishConfig.StepSetsTag | engine-chess/stockfish_config.py:114-117 | the loop body sets the line's key to the line's stripped field and leaves other lines' keys alone |
| StockfishConfig.ParseLines | engine-chess/stockfish_config.py:113-117 | the loop fills the dictionary from all the lines |
| StockfishConfig.StockfishInfo | engine-chess/stockfish_config.py:89-122 | a missing path or an exception gives None, and a dictionary returned is never empty |
| StockfishConfig.GetStockfishInfo | engine-chess/stockfish_config.py:89-122 | `get_stockfish_info` returns the dictionary its loop fills, or None |
| StockfishConfig.OnlyIdKeys | engine-chess/stockfish_config.py:113-117 | only "name" and "author" are ever set |
| StockfishConfig.KeySetIffLine | engine-chess/stockfish_config.py:113-117 | a key is set exactly when some line starts with its prefix |
| StockfishConfig.LastLineWins | engine-chess/stockfish_config.py:113-117 | when several lines carry a key's prefix, the last of them gives its value |
| StockfishConfig.OtherLinesIgnored | engine-chess/stockfish_config.py:113-117 | a line with neither prefix changes nothing, wherever it stands |
| StockfishConfig.InfoEmptyIff | engine-chess/stockfish_config.py:119 | the dictionary is empty exactly when no line starts with either prefix |
| StockfishConfig.InfoNoneIff | engine-chess/stockfish_config.py:99-122 | the result is None exactly when the path is missing, running the binary raised, or no output line carries either prefix |

## Left out

- The rules of chess, FEN strings and python-chess's `Board` are outside the model. The rules are the function fields of `Game`, the FEN is represented by the move history, and UCI strings are built from square numbers.
- Randomness is not modelled. `random.choice` draws from a per-playout oracle keyed by the evaluated position. The program draws from one shared stream, so its draws depend on the order of evaluation and on pruning; the model does not capture that.
- Timing is not modelled. `measure_move_time` and `time_limit` are left out; each search time is the value of a clock function at the position searched.
- Stockfish is not run. `popen_uci` is reduced to a launched/not-launched flag, `stockfish.play` to a reply function, and `quit` to the ghost `released` flag. A reply without a move makes `board.push` raise in the program, and the model records that game as `Crashed`.
- `stockfish_config.py` is covered only from the captured output onwards. Running the binary, the 5-second timeout and the UTF-8 decoding with `errors='ignore'` are outside the model; decoding is assumed done. The path search in `get_default_stockfish_path` (lines 9-59) and `main` (lines 124-150) are printing and filesystem work, so they are left out.
- Printing, JSON output (`save_summary_json`), charts, reports, the web front end and the command line are left out.
- The program works with Python floats; the model uses exact reals, so rounding is not modelled. `statistics.stdev`'s square root is a function parameter.
- `select_best_move` with `depth <= 0` recurses without bound in the program, so the model requires depth at least 1.
- Monte-Carlo evaluation with `rollout_count == 0` divides by zero in the program, so the model requires at least one rollout whenever Monte-Carlo evaluation is used.
- A negative `rollout_count` runs no rollouts and gives every Monte-Carlo leaf the score 0 (`0.0 / -n` is `-0.0`). The model takes the count as a natural number, so that case is not modelled.
- The `except Exception` path of `play_h2h_game` (lines 65-67) is not modelled. The errors it would catch are the `ZeroDivisionError` from zero rollouts and the `RecursionError` from `depth <= 0`, and the requirements above exclude both.
- `Search.Minimax`: the fail-soft contract is stated only for a non-empty window (alpha < beta), which is what the searches pass down. A call with an empty window is covered only by the "board restored" and leaf clauses.
- `HeadToHead.PlayH2H`: the per-side move logs are kept but never returned, so they are ghost results.
- `Metrics.CalculateStats`: the standard deviation is stated only as the square root of the sample variance, not as a float computation.
