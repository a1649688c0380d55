/** Vocabulary shared by the engine and the game harness: sides, pieces,
    moves, and the board capability that the search and the orchestrators
    drive.

    The rules of chess are not modelled. A `Game` bundles them as functions
    of the move history played from the game's start position: legal-move
    generation, game-over and checkmate detection, the side to move, the
    piece placement and the outcome. A `Board` is the mutable object the
    engine pushes moves onto and pops them from. */
module Chess {

  datatype Option<+T> = None | Some(value: T)

  datatype Color = White | Black

  function Opponent(c: Color): (o: Color)
    ensures o != c
  {
    if c == White then Black else White
  }

  datatype PieceType = Pawn | Knight | Bishop | Rook | Queen | King

  datatype Piece = Piece(kind: PieceType, color: Color)

  /** Square numbering of python-chess: a1 = 0, b1 = 1, ..., h1 = 7, a2 = 8, ..., h8 = 63. */
  type Square = i: int | 0 <= i < 64

  datatype Move = Move(from: Square, to: Square, promotion: Option<PieceType>)

  /** The placement of the pieces: one entry per square, in square order. */
  type Squares = s: seq<Option<Piece>> | |s| == 64 witness seq(64, _ => None)

  /** A position, given as the moves played from the game's start position. */
  type History = seq<Move>

  /** A player: the move it makes in each position, `None` when it has none. */
  type Player = History -> Option<Move>

  /** The rules, as seen by the engine. `maxPlies` bounds the length of any
      game: chess's 75-move and fivefold-repetition rules end every game. */
  datatype Game = Game(
    legal: History -> seq<Move>,
    gameOver: History -> bool,
    checkmate: History -> bool,
    turn: History -> Color,
    pieces: History -> Squares,
    winner: History -> Option<Color>,
    termination: History -> string,
    maxPlies: nat)

  /** Every game ends within `maxPlies` plies. */
  ghost predicate Finite(g: Game)
  {
    forall h: History :: |h| >= g.maxPlies ==> g.gameOver(h)
  }

  /** A position that is not over has a legal move: a side without legal moves
      is checkmated or stalemated, which ends the game. */
  ghost predicate NoStuckPositions(g: Game)
  {
    forall h: History :: !g.gameOver(h) ==> g.legal(h) != []
  }

  /** `board.outcome()`: present exactly when the game is over. */
  datatype GameOutcome = GameOutcome(winner: Option<Color>, termination: string)

  function Outcome(g: Game, h: History): (o: Option<GameOutcome>)
    ensures o.Some? <==> g.gameOver(h)
  {
    if g.gameOver(h) then Some(GameOutcome(g.winner(h), g.termination(h))) else None
  }

  /** `board.result()`: "1-0", "0-1" or "1/2-1/2" for a finished game, "*" otherwise. */
  function ResultString(g: Game, h: History): (r: string)
    ensures r == "*" <==> !g.gameOver(h)
  {
    match Outcome(g, h)
    case None => "*"
    case Some(o) =>
      match o.winner
      case Some(White) => "1-0"
      case Some(Black) => "0-1"
      case None => "1/2-1/2"
  }

  /** `Move.uci()`: origin and destination square names, then the promotion piece. */
  function SquareName(sq: Square): string
  {
    [('a' as int + sq % 8) as char, ('1' as int + sq / 8) as char]
  }

  function PieceSymbol(t: PieceType): char
  {
    match t
    case Pawn => 'p'
    case Knight => 'n'
    case Bishop => 'b'
    case Rook => 'r'
    case Queen => 'q'
    case King => 'k'
  }

  function Uci(m: Move): (s: string)
    ensures |s| == if m.promotion.Some? then 5 else 4
  {
    SquareName(m.from) + SquareName(m.to) + (if m.promotion.Some? then [PieceSymbol(m.promotion.value)] else [])
  }

  function UciList(h: History): (ss: seq<string>)
    ensures |ss| == |h|
  {
    seq(|h|, i requires 0 <= i < |h| => Uci(h[i]))
  }

  lemma SquareNameInjective(a: Square, b: Square)
    requires SquareName(a) == SquareName(b)
    ensures a == b
  {
    assert SquareName(a)[0] == SquareName(b)[0] && SquareName(a)[1] == SquareName(b)[1];
    assert a % 8 == b % 8 && a / 8 == b / 8;
  }

  /** Distinct moves have distinct UCI strings, so the logged move lists
      determine the moves played. */
  lemma {:induction false} UciInjective(m1: Move, m2: Move)
    requires Uci(m1) == Uci(m2)
    ensures m1 == m2
  {
    var s1, s2 := Uci(m1), Uci(m2);
    assert SquareName(m1.from) == s1[0..2] && SquareName(m2.from) == s2[0..2];
    assert SquareName(m1.to) == s1[2..4] && SquareName(m2.to) == s2[2..4];
    SquareNameInjective(m1.from, m2.from);
    SquareNameInjective(m1.to, m2.to);
    if m1.promotion.Some? {
      assert s1[4] == PieceSymbol(m1.promotion.value) && s2[4] == PieceSymbol(m2.promotion.value);
    }
  }

  /** The python-chess board object: the position is the stack of moves pushed
      onto the game's start position. */
  class Board {
    const game: Game
    var stack: History

    constructor (g: Game, h: History)
      ensures game == g && stack == h
    {
      game := g;
      stack := h;
    }

    function LegalMoves(): seq<Move>
      reads this
    {
      game.legal(stack)
    }

    predicate IsGameOver()
      reads this
    {
      game.gameOver(stack)
    }

    function Turn(): Color
      reads this
    {
      game.turn(stack)
    }

    method Push(m: Move)
      modifies this
      ensures stack == old(stack) + [m]
    {
      stack := stack + [m];
    }

    method Pop() returns (m: Move)
      requires stack != []
      modifies this
      ensures stack == old(stack)[..|old(stack)| - 1]
      ensures m == old(stack)[|old(stack)| - 1]
    {
      m := stack[|stack| - 1];
      stack := stack[..|stack| - 1];
    }

    /** `board.copy()`: an independent board in the same position. */
    method Copy() returns (b: Board)
      ensures fresh(b) && b.game == game && b.stack == stack
    {
      b := new Board(game, stack);
    }
  }
}
