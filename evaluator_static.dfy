/** The static material evaluator: a signed sum of fixed piece values over the
    64 squares, with the finished positions scored apart. Positive scores
    favour White, the maximizing side. */
module StaticEvaluator {
  import opened Chess

  /** Magnitude of a checkmate score. */
  const MateScore: int := 9999

  /** The material table, `PIECE_VALUES`. */
  function PieceValue(t: PieceType): (v: nat)
    ensures v >= 10
    ensures t == King <==> v == 900
  {
    match t
    case Pawn => 10
    case Knight => 30
    case Bishop => 30
    case Rook => 50
    case Queen => 90
    case King => 900
  }

  /** What one square adds to the score: the piece's value for White, its
      negation for Black, nothing when the square is empty. */
  function SquareValue(sq: Option<Piece>): int
  {
    match sq
    case None => 0
    case Some(p) => if p.color == White then PieceValue(p.kind) else -(PieceValue(p.kind) as int)
  }

  /** The running score after visiting the given squares in order. */
  function Material(s: seq<Option<Piece>>): int
  {
    if s == [] then 0 else Material(s[..|s| - 1]) + SquareValue(s[|s| - 1])
  }

  /** The score `evaluate_static` gives a position, from its piece placement
      and the board's game-over, checkmate and side-to-move queries. */
  function StaticScore(sq: Squares, gameOver: bool, checkmate: bool, turn: Color): int
  {
    if gameOver then
      if checkmate then (if turn == White then -MateScore else MateScore) else 0
    else
      Material(sq)
  }

  method EvaluateStatic(sq: Squares, gameOver: bool, checkmate: bool, turn: Color) returns (score: int)
    ensures score == StaticScore(sq, gameOver, checkmate, turn)
  {
    if gameOver {
      if checkmate {
        return if turn == White then -MateScore else MateScore;
      }
      return 0;
    }
    score := 0;
    for i := 0 to 64
      invariant score == Material(sq[..i])
    {
      assert sq[..i + 1][..i] == sq[..i];
      match sq[i]
      case None =>
      case Some(piece) =>
        var value := PieceValue(piece.kind);
        if piece.color == White {
          score := score + value;
        } else {
          score := score - value;
        }
    }
    assert sq[..64] == sq;
  }

  // ----- Properties of the evaluator -----

  /** A mated side is always on the losing end: -9999 when White is to move,
      +9999 when Black is. */
  lemma CheckmateScores(sq: Squares, turn: Color)
    ensures StaticScore(sq, true, true, turn) == (if turn == White then -9999 else 9999)
    ensures turn == White ==> StaticScore(sq, true, true, turn) < 0
    ensures turn == Black ==> StaticScore(sq, true, true, turn) > 0
  {
  }

  /** Every other finished position is a draw and scores exactly 0, whatever
      the material. */
  lemma DrawScoresZero(sq: Squares, turn: Color)
    ensures StaticScore(sq, true, false, turn) == 0
  {
  }

  /** The total value of the pieces of one colour, summed from the first square. */
  function ColorMaterial(s: seq<Option<Piece>>, c: Color): (total: nat)
  {
    if s == [] then 0
    else (match s[0] case Some(p) => if p.color == c then PieceValue(p.kind) else 0 case None => 0)
         + ColorMaterial(s[1..], c)
  }

  lemma {:induction false} ColorMaterialAppend(s: seq<Option<Piece>>, x: Option<Piece>, c: Color)
    ensures ColorMaterial(s + [x], c) == ColorMaterial(s, c) + ColorMaterial([x], c)
  {
    if s != [] {
      assert (s + [x])[1..] == s[1..] + [x];
      ColorMaterialAppend(s[1..], x, c);
    }
  }

  /** A position that is not over scores White's material minus Black's. */
  lemma {:induction false} MaterialIsWhiteMinusBlack(s: seq<Option<Piece>>)
    ensures Material(s) == ColorMaterial(s, White) - ColorMaterial(s, Black)
  {
    if s != [] {
      var init, last := s[..|s| - 1], s[|s| - 1];
      assert s == init + [last];
      MaterialIsWhiteMinusBlack(init);
      ColorMaterialAppend(init, last, White);
      ColorMaterialAppend(init, last, Black);
    }
  }

  lemma {:induction false} MaterialAppend(a: seq<Option<Piece>>, b: seq<Option<Piece>>)
    ensures Material(a + b) == Material(a) + Material(b)
    decreases |b|
  {
    if b == [] {
      assert a + b == a;
    } else {
      var init, last := b[..|b| - 1], b[|b| - 1];
      assert a + b == (a + init) + [last];
      assert (a + b)[..|a + b| - 1] == a + init;
      MaterialAppend(a, init);
    }
  }

  /** Emptying one square changes the score by exactly what that square was
      worth; an empty square contributes nothing. */
  lemma {:induction false} RemovePiece(s: seq<Option<Piece>>, i: nat)
    requires i < |s|
    ensures Material(s[i := None]) == Material(s) - SquareValue(s[i])
  {
    var pre, post := s[..i], s[i + 1..];
    assert s == pre + [s[i]] + post;
    assert s[i := None] == pre + [None] + post;
    MaterialAppend(pre + [s[i]], post);
    MaterialAppend(pre + [None], post);
    MaterialAppend(pre, [s[i]]);
    MaterialAppend(pre, [None]);
  }

  function EmptySquares(n: nat): (s: seq<Option<Piece>>)
    ensures |s| == n
  {
    seq(n, _ => None)
  }

  lemma {:induction false} EmptySquaresScoreZero(n: nat)
    ensures Material(EmptySquares(n)) == 0
  {
    if n > 0 {
      assert EmptySquares(n)[..n - 1] == EmptySquares(n - 1);
      EmptySquaresScoreZero(n - 1);
    }
  }

  function SwapColor(sq: Option<Piece>): Option<Piece>
  {
    match sq
    case None => None
    case Some(p) => Some(Piece(p.kind, Opponent(p.color)))
  }

  /** The same placement with every piece handed to the other side. */
  function Swapped(s: seq<Option<Piece>>): (r: seq<Option<Piece>>)
    ensures |r| == |s|
  {
    seq(|s|, i requires 0 <= i < |s| => SwapColor(s[i]))
  }

  /** Handing every piece to the other side negates the material score. */
  lemma {:induction false} SwapNegates(s: seq<Option<Piece>>)
    ensures Material(Swapped(s)) == -Material(s)
  {
    if s != [] {
      var init := s[..|s| - 1];
      assert Swapped(s)[..|s| - 1] == Swapped(init);
      SwapNegates(init);
    }
  }

  function BackRank(c: Color): (s: seq<Option<Piece>>)
    ensures |s| == 8
  {
    [Some(Piece(Rook, c)), Some(Piece(Knight, c)), Some(Piece(Bishop, c)), Some(Piece(Queen, c)),
     Some(Piece(King, c)), Some(Piece(Bishop, c)), Some(Piece(Knight, c)), Some(Piece(Rook, c))]
  }

  function PawnRank(c: Color): (s: seq<Option<Piece>>)
    ensures |s| == 8
  {
    seq(8, _ => Some(Piece(Pawn, c)))
  }

  /** The standard starting placement, rank 1 first. */
  function InitialSquares(): Squares
  {
    BackRank(White) + PawnRank(White) + EmptySquares(32) + PawnRank(Black) + BackRank(Black)
  }

  /** The starting position is balanced: it scores 0. */
  lemma InitialPositionBalanced()
    ensures StaticScore(InitialSquares(), false, false, White) == 0
  {
    var wb, wp, e, bp, bb := BackRank(White), PawnRank(White), EmptySquares(32), PawnRank(Black), BackRank(Black);
    assert bb == Swapped(wb);
    assert bp == Swapped(wp);
    SwapNegates(wb);
    SwapNegates(wp);
    EmptySquaresScoreZero(32);
    MaterialAppend(wb, wp);
    MaterialAppend(wb + wp, e);
    MaterialAppend(wb + wp + e, bp);
    MaterialAppend(wb + wp + e + bp, bb);
  }

  /** Taking Black's a7 pawn off the starting position leaves White ahead by
      one pawn. */
  lemma MissingBlackPawnFavoursWhite()
    ensures StaticScore(InitialSquares()[48 := None], false, false, White) == 10
  {
    var s := InitialSquares();
    assert s[48] == Some(Piece(Pawn, Black));
    RemovePiece(s, 48);
    InitialPositionBalanced();
  }
}
