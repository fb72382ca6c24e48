/** The text codecs for squares, pieces and single moves: board
    coordinates, piece letters and the coordinate move format of the xboard
    Chess Engine Communication Protocol. A C string is modelled as the
    characters of its buffer, read as NUL past the end. */
module Notation {
  import opened Types
  import opened Masks

  const Nul: char := '\0'

  /** FTK_MOVE_STRING_SIZE: the buffer a move text is written to. */
  const MoveStringSize := 6

  /** The character at index `i` of a C string buffer. */
  function At(s: seq<char>, i: int): char
  {
    if 0 <= i < |s| then s[i] else Nul
  }

  /** Index of the first NUL at or after `i`. */
  function NulFrom(s: seq<char>, i: nat): (n: nat)
    ensures i <= n && At(s, n) == Nul
    ensures forall j :: i <= j < n ==> At(s, j) != Nul
    decreases |s| - i
  {
    if At(s, i) == Nul then i else NulFrom(s, i + 1)
  }

  /** strlen: the length of the C string held in `s`. */
  function CLength(s: seq<char>): nat
  {
    NulFrom(s, 0)
  }

  // ----------------------------------------------------------------------
  // ftk_increment_string_index

  /** Moving an index `n` characters forward stops at the terminating NUL:
      the first component says whether the whole distance was covered. */
  function Advance(s: seq<char>, index: nat, n: nat): (r: (bool, nat))
    ensures r.0 <==> forall j :: index <= j < index + n ==> At(s, j) != Nul
    ensures r.0 ==> r.1 == index + n
    ensures !r.0 ==> index <= r.1 < index + n && At(s, r.1) == Nul
    ensures forall j :: index <= j < r.1 ==> At(s, j) != Nul
    decreases n
  {
    if n == 0 then (true, index)
    else if At(s, index) == Nul then (false, index)
    else Advance(s, index + 1, n - 1)
  }

  /** Advance by one character, the step every reader loop takes. */
  function Step(s: seq<char>, index: nat): (bool, nat)
  {
    if At(s, index) == Nul then (false, index) else (true, index + 1)
  }

  /** Step and two Steps are Advance by one and by two. */
  lemma StepIsAdvance(s: seq<char>, index: nat)
    ensures Step(s, index) == Advance(s, index, 1)
    ensures (var a := Step(s, index); if a.0 then Step(s, a.1) else a) == Advance(s, index, 2)
  {
  }

  /** ftk_increment_string_index: advance `index` by `increment`, one
      character at a time, refusing to step over a NUL. */
  method IncrementStringIndex(s: seq<char>, index: nat, increment: nat) returns (ok: bool, next: nat)
    ensures (ok, next) == Advance(s, index, increment)
  {
    ok := true;
    next := index;
    var i := 0;
    while i < increment
      invariant 0 <= i <= increment && next == index + i
      invariant Advance(s, index, increment) == Advance(s, next, increment - i)
    {
      if At(s, next) == Nul {
        ok := false;
        break;
      }
      next := next + 1;
      i := i + 1;
    }
  }

  // ----------------------------------------------------------------------
  // Coordinates

  predicate IsFileLetter(c: char)
  {
    'a' <= c <= 'h' || 'A' <= c <= 'H'
  }

  predicate IsRankDigit(c: char)
  {
    '1' <= c <= '8'
  }

  /** The file (0..7) a file letter names, in either case. */
  function FileOf(c: char): int
  {
    if 'a' <= c <= 'h' then c as int - 'a' as int else c as int - 'A' as int
  }

  function Lower(c: char): char
  {
    if 'A' <= c <= 'Z' then (c as int + 32) as char else c
  }

  /** ftk_string_to_position: a file letter in either case and a rank
      digit name a square; anything else is XX. */
  function StringToPosition(input: seq<char>): (p: int)
    ensures 0 <= p <= XX
    ensures p < XX <==> IsFileLetter(At(input, 0)) && IsRankDigit(At(input, 1))
    ensures p < XX ==> p % 8 == FileOf(At(input, 0)) && p / 8 == At(input, 1) as int - '1' as int
  {
    var c0, c1 := At(input, 0), At(input, 1);
    if 'A' <= c0 <= 'H' && '1' <= c1 <= '8' then (c1 as int - '1' as int) * 8 + (c0 as int - 'A' as int)
    else if 'a' <= c0 <= 'h' && '1' <= c1 <= '8' then (c1 as int - '1' as int) * 8 + (c0 as int - 'a' as int)
    else XX
  }

  /** The three characters ftk_position_to_string writes: a lower-case file
      letter, a rank digit and NUL for a square, "XX" and NUL otherwise. */
  function Coordinate(p: int): (t: seq<char>)
    requires 0 <= p
    ensures |t| == 3 && t[2] == Nul
    ensures p < XX ==> 'a' <= t[0] <= 'h' && IsRankDigit(t[1])
    ensures p >= XX ==> t[0] == 'X' && t[1] == 'X'
  {
    if p < XX then [(p % 8 + 'a' as int) as char, (p / 8 + '1' as int) as char, Nul]
    else ['X', 'X', Nul]
  }

  /** ftk_position_to_string, writing into `coordinate` from index `at`. */
  method PositionToString(square: int, coordinate: array<char>, at: nat)
    requires 0 <= square && at + 3 <= coordinate.Length
    modifies coordinate
    ensures coordinate[..] == old(coordinate[..at]) + Coordinate(square) + old(coordinate[at + 3..])
  {
    if square < XX {
      coordinate[at] := (square % 8 + 'a' as int) as char;
      coordinate[at + 1] := (square / 8 + '1' as int) as char;
      coordinate[at + 2] := Nul;
    } else {
      coordinate[at] := 'X';
      coordinate[at + 1] := 'X';
      coordinate[at + 2] := Nul;
    }
  }

  /** Reading back a written coordinate gives the square, or XX for
      anything off the board. */
  lemma CoordinateRoundTrip(p: int)
    requires 0 <= p
    ensures StringToPosition(Coordinate(p)) == if p < XX then p else XX
  {
    if p < XX {
      var t := Coordinate(p);
      assert At(t, 0) == t[0] && At(t, 1) == t[1];
      assert 'a' <= t[0] <= 'h';
    }
  }

  /** Writing a parsed square gives the text back, with the file letter in
      lower case. */
  lemma PositionRoundTrip(input: seq<char>)
    requires StringToPosition(input) < XX
    ensures Coordinate(StringToPosition(input))[..2] == [Lower(At(input, 0)), At(input, 1)]
  {
  }

  /** Only the first two characters decide the square. */
  lemma StringToPositionReadsTwo(s: seq<char>, t: seq<char>)
    requires At(s, 0) == At(t, 0) && At(s, 1) == At(t, 1)
    ensures StringToPosition(s) == StringToPosition(t)
  {
  }

  // ----------------------------------------------------------------------
  // Piece letters

  const PieceLetters := "PNBRQKpnbrqk"

  /** ftk_char_to_piece_type: the letters P, N, B, R, Q, K in either case;
      EMPTY for any other character. */
  function CharToPieceType(input: char): (t: PieceType)
    ensures t == Empty || IsPieceType(t)
    ensures t == Empty <==> input !in PieceLetters
  {
    match input
    case 'P' | 'p' => Pawn
    case 'N' | 'n' => Knight
    case 'B' | 'b' => Bishop
    case 'R' | 'r' => Rook
    case 'Q' | 'q' => Queen
    case 'K' | 'k' => King
    case _ => Empty
  }

  /** ftk_type_to_char: the lower-case letter of a piece type, 'X' for
      EMPTY and DONT_CARE. */
  function TypeToChar(t: PieceType): (c: char)
    ensures c == 'X' <==> !IsPieceType(t)
    ensures c != 'X' ==> c in PieceLetters && 'a' <= c <= 'z'
  {
    match t
    case Pawn => 'p'
    case Knight => 'n'
    case Bishop => 'b'
    case Rook => 'r'
    case Queen => 'q'
    case King => 'k'
    case _ => 'X'
  }

  /** ftk_char_to_square: a piece letter gives that piece, white for an
      upper-case letter and black otherwise, with the moved status left
      INVALID; any other character gives a cleared square. */
  function CharToSquare(input: char): (s: Square)
    ensures s.kind == CharToPieceType(input) && s.moved == Invalid
    ensures s.kind == Empty ==> s == Clear
    ensures s.kind != Empty ==> (s.color == White <==> 'A' <= input <= 'Z') && s.color != NoColor && s.color != ColorDontCare
  {
    var kind := CharToPieceType(input);
    if kind == Empty then Clear
    else Square(kind, if 'A' <= input <= 'Z' then White else Black, Invalid)
  }

  /** ftk_square_to_char: the piece's letter, upper case for white and
      lower case for any other colour; 'X' for a square without a piece. */
  function SquareToChar(s: Square): (c: char)
    ensures c == 'X' <==> !IsPieceType(s.kind)
    ensures c != 'X' ==> c in PieceLetters && ('A' <= c <= 'Z' <==> s.color == White)
  {
    match s.kind
    case Pawn => if s.color == White then 'P' else 'p'
    case Knight => if s.color == White then 'N' else 'n'
    case Bishop => if s.color == White then 'B' else 'b'
    case Rook => if s.color == White then 'R' else 'r'
    case Queen => if s.color == White then 'Q' else 'q'
    case King => if s.color == White then 'K' else 'k'
    case _ => 'X'
  }

  /** Piece letters are read without regard to case. */
  lemma PieceLettersIgnoreCase(c: char)
    ensures CharToPieceType(Lower(c)) == CharToPieceType(c)
  {
  }

  /** A piece type survives being written as a letter and read back, and a
      piece letter read and written again comes back in lower case. */
  lemma TypeLetterRoundTrip(t: PieceType, c: char)
    ensures IsPieceType(t) ==> CharToPieceType(TypeToChar(t)) == t
    ensures CharToPieceType(c) != Empty ==> TypeToChar(CharToPieceType(c)) == Lower(c)
  {
  }

  /** A piece letter read as a square and written back is the same letter. */
  lemma LetterSquareRoundTrip(c: char)
    requires c in PieceLetters
    ensures SquareToChar(CharToSquare(c)) == c
  {
  }

  /** A white or black piece written as a letter and read back keeps its
      type and colour; the moved status is not in the letter. */
  lemma SquareLetterRoundTrip(s: Square)
    requires IsPieceType(s.kind) && (s.color == White || s.color == Black)
    ensures CharToSquare(SquareToChar(s)) == Square(s.kind, s.color, Invalid)
  {
  }

  // ----------------------------------------------------------------------
  // Move text

  /** What ftk_long_algebraic_move reports, with the values its target and
      source out-parameters hold afterwards. */
  datatype MoveText = MoveText(result: Result, target: int, source: int, promotion: PieceType, castle: bv8)

  /** The outcome of ftk_long_algebraic_move on `input`, when the caller's
      target and source variables held `target` and `source`. */
  function ParseMove(input: seq<char>, target: int, source: int): (r: MoveText)
    requires CLength(input) < 256
    ensures r.result == Failure <==> At(input, 0) != 'O' && CLength(input) < 4
    ensures r.castle != CastleNone ==> At(input, 0) == 'O'
    ensures r.castle == CastleNone ==> r.result == Failure || (0 <= r.source <= XX && 0 <= r.target <= XX)
    ensures r.castle != CastleNone || r.result == Failure ==> r.target == target && r.source == source
    ensures r.promotion != Empty ==> CLength(input) == 5 && IsPieceType(r.promotion)
  {
    var size := CLength(input);
    if At(input, 0) == 'O' then
      MoveText(Success, target, source, Empty,
        if size == 3 then CastleKingSideWhite else CastleQueenSideWhite)
    else if size >= 4 then
      MoveText(Success,
        StringToPosition([At(input, 2), At(input, 3)]),
        StringToPosition([At(input, 0), At(input, 1)]),
        if size == 5 then CharToPieceType(At(input, 4)) else Empty,
        CastleNone)
    else
      MoveText(Failure, target, source, Empty, CastleNone)
  }

  /** ftk_long_algebraic_move (and ftk_xboard_move, which forwards to it).
      The length is counted in an 8-bit variable, so the text must end
      within 256 characters for the count to terminate. */
  method LongAlgebraicMove(input: seq<char>, target0: int, source0: int)
    returns (result: Result, target: int, source: int, promotion: PieceType, castle: bv8)
    requires CLength(input) < 256
    ensures MoveText(result, target, source, promotion, castle) == ParseMove(input, target0, source0)
  {
    result := Success;
    target, source := target0, source0;
    promotion := Empty;
    castle := CastleNone;
    var inputSize := 0;
    while At(input, inputSize) != Nul
      invariant 0 <= inputSize <= CLength(input)
      invariant forall j :: 0 <= j < inputSize ==> At(input, j) != Nul
      decreases CLength(input) - inputSize
    {
      inputSize := inputSize + 1;
    }
    assert inputSize == CLength(input);
    if At(input, 0) == 'O' {
      if inputSize == 3 {
        castle := CastleKingSideWhite;
      } else {
        castle := CastleQueenSideWhite;
      }
    } else if inputSize >= 4 {
      source := StringToPosition([At(input, 0), At(input, 1), Nul]);
      target := StringToPosition([At(input, 2), At(input, 3), Nul]);
      if inputSize == 5 {
        promotion := CharToPieceType(At(input, 4));
      }
    } else {
      result := Failure;
    }
  }

  /** The six characters ftk_move_to_xboard_string leaves in its buffer:
      the source and target coordinates, the lower-case promotion letter
      when there is a promotion, and NUL padding. */
  function XboardText(source: int, target: int, promotion: PieceType): (t: seq<char>)
    requires 0 <= source && 0 <= target
    ensures |t| == MoveStringSize && t[5] == Nul
    ensures CLength(t) == if IsPieceType(promotion) then 5 else 4
  {
    var c := TypeToChar(promotion);
    var t := Coordinate(source)[..2] + Coordinate(target)[..2] + [if c == 'X' then Nul else c, Nul];
    assert At(t, 0) != Nul && At(t, 1) != Nul && At(t, 2) != Nul && At(t, 3) != Nul;
    assert NulFrom(t, 4) == (if IsPieceType(promotion) then 5 else 4);
    t
  }

  /** ftk_move_to_xboard_string: clear the buffer, write both coordinates
      (the target's overwriting the source's NUL) and the promotion letter,
      which is dropped again when it is 'X'. */
  method MoveToXboardString(move: Move, output: array<char>) returns (result: Result)
    requires 0 <= move.source && 0 <= move.target && MoveStringSize <= output.Length
    modifies output
    ensures result == Success
    ensures output[..MoveStringSize] == XboardText(move.source, move.target, move.promotion)
    ensures output[MoveStringSize..] == old(output[MoveStringSize..])
  {
    result := Success;
    ClearText(output);
    WriteSquares(move.source, move.target, output);
    output[4] := TypeToChar(move.promotion);
    if 'X' == output[4] {
      output[4] := Nul;
    }
    assert output[..MoveStringSize] == XboardText(move.source, move.target, move.promotion);
  }

  /** The clearing loop of ftk_move_to_xboard_string. */
  method ClearText(output: array<char>)
    requires MoveStringSize <= output.Length
    modifies output
    ensures output[..MoveStringSize] == [Nul, Nul, Nul, Nul, Nul, Nul]
    ensures output[MoveStringSize..] == old(output[MoveStringSize..])
  {
    ghost var rest := output[MoveStringSize..];
    for i := 0 to MoveStringSize
      invariant output[MoveStringSize..] == rest
      invariant forall j :: 0 <= j < i ==> output[j] == Nul
    {
      output[i] := Nul;
    }
  }

  /** Both coordinates written into a cleared buffer, the target's first
      character over the source's NUL. */
  method WriteSquares(source: int, target: int, output: array<char>)
    requires 0 <= source && 0 <= target && MoveStringSize <= output.Length
    requires output[..MoveStringSize] == [Nul, Nul, Nul, Nul, Nul, Nul]
    modifies output
    ensures output[..MoveStringSize] == Coordinate(source)[..2] + Coordinate(target)[..2] + [Nul, Nul]
    ensures output[MoveStringSize..] == old(output[MoveStringSize..])
  {
    ghost var cs, ct := Coordinate(source), Coordinate(target);
    ghost var o0 := output[..];
    assert o0[3..MoveStringSize] == [Nul, Nul, Nul] by {
      assert o0[..MoveStringSize] == old(output[..MoveStringSize]);
    }
    PositionToString(source, output, 0);
    ghost var o1 := output[..];
    assert o1 == cs + o0[3..];
    assert o1[..MoveStringSize] == cs + [Nul, Nul, Nul];
    PositionToString(target, output, 2);
    assert output[..] == o1[..2] + ct + o1[5..];
    assert output[..MoveStringSize] == cs[..2] + ct + [Nul];
  }

  /** A square number as ftk_string_to_position returns it after a round
      trip through text: itself on the board, XX otherwise. */
  function Clamp(p: int): int
  {
    if p < XX then p else XX
  }

  /** Parsing the text of a move gives back its squares (XX for squares
      off the board) and its promotion, with EMPTY for none. */
  lemma XboardRoundTrip(source: int, target: int, promotion: PieceType, target0: int, source0: int)
    requires 0 <= source && 0 <= target
    ensures ParseMove(XboardText(source, target, promotion), target0, source0) ==
      MoveText(Success, Clamp(target), Clamp(source), if IsPieceType(promotion) then promotion else Empty, CastleNone)
  {
    var t := XboardText(source, target, promotion);
    var cs, ct := Coordinate(source), Coordinate(target);
    assert At(t, 0) == cs[0] && At(t, 1) == cs[1] && At(t, 2) == ct[0] && At(t, 3) == ct[1];
    assert At(t, 0) != 'O';
    CoordinateRoundTrip(source);
    CoordinateRoundTrip(target);
    StringToPositionReadsTwo([At(t, 0), At(t, 1)], cs);
    StringToPositionReadsTwo([At(t, 2), At(t, 3)], ct);
    if IsPieceType(promotion) {
      TypeLetterRoundTrip(promotion, At(t, 4));
    }
  }

  /** Writing a parsed coordinate move and parsing it again reproduces the
      parse. */
  lemma ParsedMoveRewrites(input: seq<char>, target0: int, source0: int)
    requires CLength(input) < 256
    requires ParseMove(input, target0, source0).result == Success
    requires ParseMove(input, target0, source0).castle == CastleNone
    ensures var r := ParseMove(input, target0, source0);
      ParseMove(XboardText(r.source, r.target, r.promotion), target0, source0) == r
  {
    var r := ParseMove(input, target0, source0);
    XboardRoundTrip(r.source, r.target, r.promotion, target0, source0);
  }
}
