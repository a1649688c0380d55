/** The game loop shared by the engine-against-Stockfish game and the
    head-to-head game: from the start position, while the game is not over,
    the player of the side to move chooses a move and it is pushed; the loop
    stops early when that player has no move.

    A player is a function from positions to its move, so a game is fully
    determined by the two players. */
module Playout {
  import opened Chess

  /** The move of the side to move: `first` plays `firstColor`, `second`
      the other colour. */
  function Choice(g: Game, first: Player, firstColor: Color, second: Player, h: History): Option<Move>
  {
    if g.turn(h) == firstColor then first(h) else second(h)
  }

  /** Where the loop stops, and whether it stopped because the side to move
      had no move (rather than because the game was over). */
  datatype Ending = Ending(final: History, stuck: bool)

  /** The game loop played out from `h`. */
  function PlayOut(g: Game, first: Player, firstColor: Color, second: Player, h: History): (e: Ending)
    requires Finite(g)
    ensures e.stuck <==> !g.gameOver(e.final)
    ensures e.stuck ==> Choice(g, first, firstColor, second, e.final) == None
    decreases g.maxPlies - |h|
  {
    if g.gameOver(h) then Ending(h, false)
    else
      assert |h| < g.maxPlies;
      match Choice(g, first, firstColor, second, h)
      case None => Ending(h, true)
      case Some(m) => PlayOut(g, first, firstColor, second, h + [m])
  }

  /** The plies of `hist`, from ply `from` on, made by `c`, in order. */
  function PliesBy(g: Game, c: Color, hist: History, from: nat): seq<Move>
  {
    if |hist| <= from then []
    else
      var p := hist[..|hist| - 1];
      PliesBy(g, c, p, from) + (if g.turn(p) == c then [hist[|hist| - 1]] else [])
  }

  /** `clock` read in each position of `hist`, from ply `from` on, in which
      `c` moved, in order: the search times `c` logs. */
  function TimesOf(g: Game, c: Color, clock: History -> real, hist: History, from: nat): seq<real>
  {
    if |hist| <= from then []
    else
      var p := hist[..|hist| - 1];
      TimesOf(g, c, clock, p, from) + (if g.turn(p) == c then [clock(p)] else [])
  }

  /** Appending a ply to the history logs it for the side that made it. */
  lemma Snoc(g: Game, c: Color, clock: History -> real, h: History, m: Move, from: nat)
    requires from <= |h|
    ensures PliesBy(g, c, h + [m], from) == PliesBy(g, c, h, from) + (if g.turn(h) == c then [m] else [])
    ensures TimesOf(g, c, clock, h + [m], from) == TimesOf(g, c, clock, h, from) + (if g.turn(h) == c then [clock(h)] else [])
  {
    assert (h + [m])[..|h|] == h;
  }

  // ----- Properties of the game loop -----

  /** The loop only extends the position, and every ply it adds is the
      choice of the player of the side to move, in a position that is not
      over. */
  lemma {:induction false} PlayOutShape(g: Game, first: Player, firstColor: Color, second: Player, h: History)
    requires Finite(g)
    ensures var f := PlayOut(g, first, firstColor, second, h).final;
      && |h| <= |f| && f[..|h|] == h
      && forall i :: |h| <= i < |f| ==>
           !g.gameOver(f[..i]) && Choice(g, first, firstColor, second, f[..i]) == Some(f[i])
    decreases g.maxPlies - |h|
  {
    if !g.gameOver(h) {
      assert |h| < g.maxPlies;
      var move := Choice(g, first, firstColor, second, h);
      if move.Some? {
        var h' := h + [move.value];
        PlayOutShape(g, first, firstColor, second, h');
        var f := PlayOut(g, first, firstColor, second, h').final;
        assert f[..|h'|] == h';
        assert f[..|h|] == h'[..|h|] == h;
        assert f[|h|] == move.value;
      }
    }
  }

  /** Every ply is made by one side or the other: the two sides' plies
      together number the plies played, and each side logs one time per ply. */
  lemma {:induction false} PliesSplit(g: Game, c: Color, clock: History -> real, hist: History, from: nat)
    requires from <= |hist|
    ensures |PliesBy(g, c, hist, from)| + |PliesBy(g, Opponent(c), hist, from)| == |hist| - from
    ensures |TimesOf(g, c, clock, hist, from)| == |PliesBy(g, c, hist, from)|
    decreases |hist|
  {
    if from < |hist| {
      var p := hist[..|hist| - 1];
      PliesSplit(g, c, clock, p, from);
      assert g.turn(p) == c || g.turn(p) == Opponent(c);
    }
  }
}
