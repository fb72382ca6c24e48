/** Vocabulary of the chess library: board geometry, square contents, the game
    and move records, and the helper macros of the type header. A 64-bit board
    mask is modelled as the set of square indices whose bit is set. */
module Types {

  const Rows := 8
  const Columns := 8
  const BoardSize := Rows * Columns
  /** Sentinel "no square", one past the last square. */
  const XX := 64

  const DrawMoves := 50
  const DrawHalfMoves := 2 * DrawMoves

  /** Move counters are 16-bit unsigned integers. */
  const CounterModulus := 65536

  /** A board mask: the squares whose bit is set. */
  type Mask = set<int>

  predicate OnBoard(m: Mask)
  {
    forall x :: x in m ==> 0 <= x < 64
  }

  datatype Result = Success | Failure

  datatype CheckState = CheckUnknown | NoCheck | InCheck

  datatype GameEnd =
    | NotOver | Checkmate | Resign | Forfeit | WinOnTime
    | DrawStalemate | DrawAgreed | DrawFiftyMoveRule | DrawRepetition
    | DrawDeadPosition | DrawOnTime

  /** Castle request bits. */
  const CastleNone: bv8 := 0x0
  const CastleKingSideWhite: bv8 := 0x1
  const CastleKingSideBlack: bv8 := 0x2
  const CastleQueenSideWhite: bv8 := 0x4
  const CastleQueenSideBlack: bv8 := 0x8
  const CastleAll: bv8 := 0xF

  datatype Color = NoColor | White | Black | ColorDontCare

  datatype PieceType = Empty | Pawn | Knight | Bishop | Rook | Queen | King | TypeDontCare

  datatype MovedStatus = Invalid | NotMoved | HasMoved | MovedDontCare

  /** Contents of one square. */
  datatype Square = Square(kind: PieceType, color: Color, moved: MovedStatus)

  /** The value FTK_SQUARE_CLEAR assigns. */
  const Clear := Square(Empty, NoColor, Invalid)

  /** A square as the engine produces it: an empty square is exactly Clear,
      an occupied one holds a real piece of a real colour. */
  predicate Tidy(s: Square)
  {
    if s.kind == Empty then s == Clear
    else s.kind != TypeDontCare && (s.color == White || s.color == Black)
  }

  predicate TidyBoard(squares: seq<Square>)
  {
    |squares| == 64 && forall i :: 0 <= i < 64 ==> Tidy(squares[i])
  }

  /** FTK_SQUARE_EQUAL: field-by-field comparison. */
  predicate SquareEqual(s1: Square, s2: Square)
  {
    s1.kind == s2.kind && s1.color == s2.color && s1.moved == s2.moved
  }

  /** FTK_SQUARE_IS: every field matches, or the argument is that field's don't-care value. */
  predicate SquareIs(s: Square, kind: PieceType, color: Color, moved: MovedStatus)
  {
    (s.kind == kind || kind == TypeDontCare) &&
    (s.color == color || color == ColorDontCare) &&
    (s.moved == moved || moved == MovedDontCare)
  }

  lemma SquareEqualIsEquality(s1: Square, s2: Square)
    ensures SquareEqual(s1, s2) <==> s1 == s2
  {
  }

  lemma SquareIsExact(s: Square, kind: PieceType, color: Color, moved: MovedStatus)
    requires kind != TypeDontCare && color != ColorDontCare && moved != MovedDontCare
    ensures SquareIs(s, kind, color, moved) <==> s == Square(kind, color, moved)
  {
  }

  lemma SquareIsDontCare(s: Square)
    ensures SquareIs(s, TypeDontCare, ColorDontCare, MovedDontCare)
    ensures SquareIs(s, s.kind, ColorDontCare, MovedDontCare)
  {
  }

  /** Index of the square on `file` (a..h = 0..7) and `rank` (1..8 = 0..7). */
  function SquareAt(file: int, rank: int): (p: int)
    requires 0 <= file < 8 && 0 <= rank < 8
    ensures 0 <= p < 64 && p % 8 == file && p / 8 == rank
  {
    8 * rank + file
  }

  const A1 := 0
  const B1 := 1
  const C1 := 2
  const D1 := 3
  const E1 := 4
  const F1 := 5
  const G1 := 6
  const H1 := 7
  const A8 := 56
  const B8 := 57
  const C8 := 58
  const D8 := 59
  const E8 := 60
  const F8 := 61
  const G8 := 62
  const H8 := 63

  lemma CastleFlagsAreDistinctBits()
    ensures CastleKingSideWhite & CastleKingSideBlack == 0 && CastleKingSideWhite & CastleQueenSideWhite == 0
    ensures CastleKingSideWhite & CastleQueenSideBlack == 0 && CastleKingSideBlack & CastleQueenSideWhite == 0
    ensures CastleKingSideBlack & CastleQueenSideBlack == 0 && CastleQueenSideWhite & CastleQueenSideBlack == 0
    ensures CastleKingSideWhite | CastleKingSideBlack | CastleQueenSideWhite | CastleQueenSideBlack == CastleAll
  {
  }

  /** A 16-bit counter after `++`. */
  function Increment16(x: int): (r: int)
    requires 0 <= x < CounterModulus
    ensures 0 <= r < CounterModulus
    ensures x < CounterModulus - 1 ==> r == x + 1
    ensures x == CounterModulus - 1 ==> r == 0
  {
    (x + 1) % CounterModulus
  }

  /** C integer division, which truncates toward zero. */
  function CDiv(a: int, b: int): (q: int)
    requires b > 0
    ensures a >= 0 ==> q == a / b
    ensures a < 0 ==> q == -((-a) / b)
  {
    if a >= 0 then a / b else -((-a) / b)
  }

  /** The record of one move, enough to take it back. A rejected move has
      source == target == XX. */
  datatype Move = Move(
    target: int,
    source: int,
    moved: Square,
    capture: Square,
    ep: int,
    promotion: PieceType,
    turn: Color,
    halfmove: int,
    fullmove: int)

  /** Index of the highest square in `m`, or 0 when `m` has none: what
      FTK_MASK_TO_POSITION computes, as a search downward from `n`. */
  function HighestBelow(m: Mask, n: int): (p: int)
    requires 0 <= n <= 64
    ensures (exists q :: q in m && 0 <= q < n) ==> p in m && 0 <= p < n
    ensures forall q :: q in m && 0 <= q < n ==> q <= p
    ensures (forall q :: q in m ==> !(0 <= q < n)) ==> p == 0
    decreases n
  {
    if n == 0 then 0 else if n - 1 in m then n - 1 else HighestBelow(m, n - 1)
  }

  function HighestSquare(m: Mask): (p: int)
    ensures 0 <= p < 64
  {
    HighestBelow(m, 64)
  }

  /** Squares of `m` shifted down by `k` bits (the bits shifted out are lost). */
  function ShiftDown(m: Mask, k: nat): Mask
  {
    set x | x in m && x >= k :: x - k
  }

  /** FTK_MASK_TO_POSITION: shift right until the mask is empty, counting the
      shifts that left something behind. */
  method MaskToPosition(m: Mask) returns (position: int)
    requires OnBoard(m)
    ensures position == HighestSquare(m)
    ensures m == {} ==> position == 0
    ensures m != {} ==> position in m && forall q :: q in m ==> q <= position
  {
    position := 0;
    var temp := m;
    ghost var k: nat := 0;
    assert ShiftDown(m, 0) == m by {
      forall y | y in m ensures y in ShiftDown(m, 0) {
        assert y >= 0 && y - 0 == y;
      }
    }
    while temp != {}
      invariant k <= 64
      invariant temp == ShiftDown(m, k)
      invariant temp != {} ==> position == k
      invariant temp == {} ==> position == (if k == 0 then 0 else k - 1)
      invariant k > 0 ==> exists q :: q in m && q >= k - 1
      decreases 64 - k
    {
      var x :| x in temp;
      assert x + k in m && x + k < 64;
      ghost var was := temp;
      temp := ShiftDown(temp, 1);
      k := k + 1;
      assert x + k - 1 in m && x + k - 1 >= k - 1;
      if temp != {} {
        position := position + 1;
      }
      assert temp == ShiftDown(m, k) by {
        forall y | y in temp ensures y in ShiftDown(m, k) {
          assert y + 1 in was;
        }
        forall y | y in ShiftDown(m, k) ensures y in temp {
          assert y + 1 in was;
        }
      }
    }
    assert k == 0 ==> m == {};
    assert forall y :: y in m && y >= k ==> y - k in ShiftDown(m, k);
    assert forall y :: y in m ==> y < k;
  }
}
