/** Forsyth-Edwards Notation (section 16.1 of the PGN Standard) as the
    library writes and reads it: the text a game is written as, the reader
    as a step-by-step scan that can stop at the terminating NUL, the
    round trip between the two, and the in-place writer and reader on the
    game object. */
module Fen {
  import opened Types
  import opened Masks
  import opened Moves
  import opened Engine
  import opened Notation

  // ----------------------------------------------------------------------
  // Numbers

  function Digit(d: int): (c: char)
    requires 0 <= d < 10
    ensures '0' <= c <= '9' && c as int - '0' as int == d
  {
    (d + '0' as int) as char
  }

  /** The decimal digits of `n`, most significant first; "0" for zero. */
  function Decimal(n: nat): (t: seq<char>)
    ensures 1 <= |t|
    ensures forall k :: 0 <= k < |t| ==> '0' <= t[k] <= '9'
    decreases n
  {
    if n < 10 then [Digit(n)] else Decimal(n / 10) + [Digit(n % 10)]
  }

  /** The value the reader's counter loop accumulates from `count` over
      the digits `t`. */
  function Accumulate(count: nat, t: seq<char>): nat
    requires forall k :: 0 <= k < |t| ==> '0' <= t[k] <= '9'
    decreases |t|
  {
    if t == [] then count else Accumulate(count * 10 + (t[0] as int - '0' as int), t[1..])
  }

  lemma {:induction false} AccumulateSnoc(count: nat, t: seq<char>, d: char)
    requires forall k :: 0 <= k < |t| ==> '0' <= t[k] <= '9'
    requires '0' <= d <= '9'
    ensures Accumulate(count, t + [d]) == Accumulate(count, t) * 10 + (d as int - '0' as int)
    decreases |t|
  {
    if t != [] {
      assert (t + [d])[1..] == t[1..] + [d];
      AccumulateSnoc(count * 10 + (t[0] as int - '0' as int), t[1..], d);
    }
  }

  /** Decimal digits read back give the number written. */
  lemma {:induction false} DecimalValue(n: nat)
    ensures Accumulate(0, Decimal(n)) == n
    decreases n
  {
    if n >= 10 {
      DecimalValue(n / 10);
      AccumulateSnoc(0, Decimal(n / 10), Digit(n % 10));
    }
  }

  /** `n` divided by ten `k` times. */
  function Shifted(n: nat, k: nat): nat
    decreases k
  {
    if k == 0 then n else Shifted(n, k - 1) / 10
  }

  lemma {:induction false} ShiftedTenth(n: nat, k: nat)
    ensures Shifted(n / 10, k) == Shifted(n, k + 1)
    decreases k
  {
    if k > 0 {
      ShiftedTenth(n, k - 1);
    }
  }

  /** Digit `i` of Decimal(n) is the last digit of `n` divided by ten once
      for every digit after it; dividing once per digit leaves zero, and
      fewer divisions leave something, for n > 0. */
  lemma {:induction false} DecimalDigits(n: nat)
    ensures var t := Decimal(n);
      forall i :: 0 <= i < |t| ==> t[i] == Digit(Shifted(n, |t| - 1 - i) % 10)
    ensures n > 0 ==> Shifted(n, |Decimal(n)|) == 0
    ensures forall k :: 0 <= k < |Decimal(n)| ==> Shifted(n, k) != 0 || n == 0
    decreases n
  {
    var t := Decimal(n);
    if n >= 10 {
      var u := Decimal(n / 10);
      DecimalDigits(n / 10);
      forall i | 0 <= i < |t|
        ensures t[i] == Digit(Shifted(n, |t| - 1 - i) % 10)
      {
        if i < |u| {
          ShiftedTenth(n, |u| - 1 - i);
        }
      }
      ShiftedTenth(n, |u|);
      forall k | 0 <= k < |t|
        ensures Shifted(n, k) != 0
      {
        if k > 0 {
          ShiftedTenth(n, k - 1);
        }
      }
    } else {
      assert Shifted(n, 1) == n / 10;
    }
  }

  // ----------------------------------------------------------------------
  // The text a game is written as

  /** Rank `r` (0 = rank 1) of the board. */
  function Row(squares: seq<Square>, r: int): (row: seq<Square>)
    requires |squares| == 64 && 0 <= r < 8
    ensures |row| == 8 && forall j :: 0 <= j < 8 ==> row[j] == squares[8 * r + j]
  {
    squares[8 * r .. 8 * r + 8]
  }

  /** The text of the squares of `row`, when `count` empty squares before
      them have not been written yet: a piece is its letter, a run of empty
      squares the digit of its length. */
  function Runs(row: seq<Square>, count: nat): (t: seq<char>)
    requires count + |row| <= 8
    decreases |row|
  {
    if row == [] then (if count != 0 then [Digit(count)] else [])
    else if row[0].kind == Empty then Runs(row[1..], count + 1)
    else (if count != 0 then [Digit(count)] else []) + [SquareToChar(row[0])] + Runs(row[1..], 0)
  }

  /** The text of row `i` of the placement field (0 = rank 8) with the
      '/' that ends every row but the last. */
  function Block(squares: seq<Square>, i: int): seq<char>
    requires |squares| == 64 && 0 <= i < 8
  {
    Runs(Row(squares, 7 - i), 0) + (if i != 7 then "/" else "")
  }

  /** The placement field from row `i` on. */
  function PlacementFrom(squares: seq<Square>, i: int): seq<char>
    requires |squares| == 64 && 0 <= i <= 8
    decreases 8 - i
  {
    if i == 8 then [] else Block(squares, i) + PlacementFrom(squares, i + 1)
  }

  /** The castling letters: K, Q, k, q for each king and rook pair still
      on their home squares and NOT_MOVED. */
  function CastleText(squares: seq<Square>): seq<char>
    requires |squares| == 64
  {
    var whiteKing := SquareIs(squares[E1], King, White, NotMoved);
    var blackKing := SquareIs(squares[E8], King, Black, NotMoved);
    (if whiteKing && SquareIs(squares[H1], Rook, White, NotMoved) then "K" else "") +
    (if whiteKing && SquareIs(squares[A1], Rook, White, NotMoved) then "Q" else "") +
    (if blackKing && SquareIs(squares[H8], Rook, Black, NotMoved) then "k" else "") +
    (if blackKing && SquareIs(squares[A8], Rook, Black, NotMoved) then "q" else "")
  }

  function CastleField(squares: seq<Square>): seq<char>
    requires |squares| == 64
  {
    if CastleText(squares) == [] then "-" else CastleText(squares)
  }

  function EpField(ep: int): seq<char>
    requires 0 <= ep
  {
    if ep != XX then Coordinate(ep)[..2] else "-"
  }

  function TurnChar(turn: Color): char
  {
    if turn == White then 'w' else 'b'
  }

  /** The text ftk_game_to_fen_string writes for a position: placement,
      side to move, castling, en-passant square, half-move and full-move
      counters, each field followed by a space. */
  function FenText(p: Position): seq<char>
    requires |p.squares| == 64 && 0 <= p.ep && 0 <= p.halfmove && 0 <= p.fullmove
  {
    PlacementFrom(p.squares, 0) + " " + ([TurnChar(p.turn)] + " " + (CastleField(p.squares) + " " +
      (EpField(p.ep) + " " + (Decimal(p.halfmove) + " " + (Decimal(p.fullmove) + " ")))))
  }

  // ----------------------------------------------------------------------
  // The reader, step by step

  /** Where the reader is: whether it is still going, the position built
      so far, and the index of the next character. */
  datatype Scan = Scan(ok: bool, p: Position, at: nat)

  /** The position the reader starts from: ftk_begin_standard_game then
      ftk_clear_board, whose effect is taken to be an all-clear board. */
  function Blank(): (p: Position)
    ensures |p.squares| == 64 && forall x :: 0 <= x < 64 ==> p.squares[x] == Clear
  {
    Position(seq(64, _ => Clear), XX, White, 0, 1)
  }

  /** A character of the placement field read as a square on row `i`
      (0 = rank 8): pawns on their starting rank are NOT_MOVED, every other
      square written is HAS_MOVED (an unknown character included). */
  function Placed(c: char, i: int): (s: Square)
    ensures s.kind == CharToPieceType(c)
  {
    var s := CharToSquare(c);
    if s.kind == Pawn && ((s.color == White && i == 6) || (s.color == Black && i == 1)) then s.(moved := NotMoved)
    else s.(moved := HasMoved)
  }

  /** A write into the board: squares past its end are not part of this
      model (the source writes outside the array). */
  function Put(squares: seq<Square>, x: int, s: Square): (r: seq<Square>)
    ensures |r| == |squares|
  {
    if 0 <= x < |squares| then squares[x := s] else squares
  }

  /** The inner loop of the placement reader on row `i`, from index `at`
      with square index `squareI` (an unsigned 8-bit value): a digit skips
      squares, any other character is written as a square, and the row
      ends at '/' or ' '. The result says whether the NUL was met first. */
  function ReadRow(fen: seq<char>, squares: seq<Square>, at: nat, squareI: int, i: int): (r: (bool, seq<Square>, nat))
    requires |squares| == 64
    ensures |r.1| == 64
    decreases |fen| - at
  {
    var c := At(fen, at);
    if c == '/' || c == ' ' then (true, squares, at)
    else
      var squares' := if '0' < c <= '8' then squares else Put(squares, squareI, Placed(c, i));
      var squareI' := if '0' < c <= '8' then (squareI + (c as int - '0' as int)) % 256 else (squareI + 1) % 256;
      var next := Step(fen, at);
      if !next.0 then (false, squares', next.1)
      else ReadRow(fen, squares', next.1, squareI', i)
  }

  /** The placement reader from row `i` on: each row starts at square
      56 - 8i and its terminator is stepped over. */
  function ReadBoard(fen: seq<char>, squares: seq<Square>, at: nat, i: int): (r: (bool, seq<Square>, nat))
    requires |squares| == 64 && 0 <= i <= 8
    ensures |r.1| == 64
    decreases 8 - i
  {
    if i == 8 then (true, squares, at)
    else
      var row := ReadRow(fen, squares, at, 56 - 8 * i, i);
      if !row.0 then row
      else
        var next := Step(fen, row.2);
        if !next.0 then (false, row.1, next.1)
        else ReadBoard(fen, row.1, next.1, i + 1)
  }

  /** A castling letter sets the moved status of the king and rook home
      squares it names to NOT_MOVED; any other character changes nothing. */
  function CastleLetter(squares: seq<Square>, c: char): (r: seq<Square>)
    requires |squares| == 64
    ensures |r| == 64
  {
    match c
    case 'K' => squares[E1 := squares[E1].(moved := NotMoved)][H1 := squares[H1].(moved := NotMoved)]
    case 'Q' => squares[E1 := squares[E1].(moved := NotMoved)][A1 := squares[A1].(moved := NotMoved)]
    case 'k' => squares[E8 := squares[E8].(moved := NotMoved)][H8 := squares[H8].(moved := NotMoved)]
    case 'q' => squares[E8 := squares[E8].(moved := NotMoved)][A8 := squares[A8].(moved := NotMoved)]
    case _ => squares
  }

  /** The castling loop: letters up to the next space. */
  function ReadCastle(fen: seq<char>, squares: seq<Square>, at: nat): (r: (bool, seq<Square>, nat))
    requires |squares| == 64
    ensures |r.1| == 64
    decreases |fen| - at
  {
    if At(fen, at) == ' ' then (true, squares, at)
    else
      var squares' := CastleLetter(squares, At(fen, at));
      var next := Step(fen, at);
      if !next.0 then (false, squares', next.1)
      else ReadCastle(fen, squares', next.1)
  }

  /** A counter field: decimal digits accumulated left to right. */
  function ReadCount(fen: seq<char>, count: nat, at: nat): (r: (bool, nat, nat))
    decreases |fen| - at
  {
    var c := At(fen, at);
    if !('0' <= c <= '9') then (true, count, at)
    else
      var count': nat := count * 10 + (c as int - '0' as int);
      var next := Step(fen, at);
      if !next.0 then (false, count', next.1)
      else ReadCount(fen, count', next.1)
  }

  function ReadPlacement(fen: seq<char>, s: Scan): (r: Scan)
    requires |s.p.squares| == 64
    ensures |r.p.squares| == 64
  {
    var b := ReadBoard(fen, s.p.squares, s.at, 0);
    Scan(b.0, s.p.(squares := b.1), b.2)
  }

  /** 'w' is White to move, anything else Black; then two characters on. */
  function ReadTurn(fen: seq<char>, s: Scan): (r: Scan)
    requires |s.p.squares| == 64
    ensures |r.p.squares| == 64
  {
    if !s.ok then s
    else
      var turn := if At(fen, s.at) == 'w' then White else Black;
      var first := Step(fen, s.at);
      var next := if first.0 then Step(fen, first.1) else first;
      Scan(next.0, s.p.(turn := turn), next.1)
  }

  function ReadCastling(fen: seq<char>, s: Scan): (r: Scan)
    requires |s.p.squares| == 64
    ensures |r.p.squares| == 64
  {
    if !s.ok then s
    else
      var c := if At(fen, s.at) == '-' then
          var next := Step(fen, s.at);
          (next.0, s.p.squares, next.1)
        else ReadCastle(fen, s.p.squares, s.at);
      if !c.0 then Scan(false, s.p.(squares := c.1), c.2)
      else
        var next := Step(fen, c.2);
        Scan(next.0, s.p.(squares := c.1), next.1)
  }

  /** A square name is read from the next two characters whatever they are
      (without looking for the NUL); '-' leaves the en-passant square as
      it was. */
  function ReadEp(fen: seq<char>, s: Scan): (r: Scan)
    requires |s.p.squares| == 64
    ensures |r.p.squares| == 64
  {
    if !s.ok then s
    else
      var e := if At(fen, s.at) != '-' then
          (true, s.p.(ep := StringToPosition([At(fen, s.at), At(fen, s.at + 1), Nul])), s.at + 2)
        else
          var next := Step(fen, s.at);
          (next.0, s.p, next.1);
      if !e.0 then Scan(false, e.1, e.2)
      else
        var next := Step(fen, e.2);
        Scan(next.0, e.1, next.1)
  }

  /** The half-move counter, stored in 16 bits; then one character on. */
  function ReadHalfmove(fen: seq<char>, s: Scan): (r: Scan)
    requires |s.p.squares| == 64
    ensures |r.p.squares| == 64
  {
    if !s.ok then s
    else
      var n := ReadCount(fen, 0, s.at);
      if !n.0 then Scan(false, s.p, n.2)
      else
        var p := s.p.(halfmove := n.1 % CounterModulus);
        var next := Step(fen, n.2);
        Scan(next.0, p, next.1)
  }

  /** The full-move counter, stored in 16 bits. */
  function ReadFullmove(fen: seq<char>, s: Scan): (r: Scan)
    requires |s.p.squares| == 64
    ensures |r.p.squares| == 64
  {
    if !s.ok then s
    else
      var n := ReadCount(fen, 0, s.at);
      if !n.0 then Scan(false, s.p, n.2)
      else Scan(true, s.p.(fullmove := n.1 % CounterModulus), n.2)
  }

  /** ftk_create_game_from_fen_string before its final refresh of the
      masks: the scan's flag is the result, its position the game's. */
  function ReadFen(fen: seq<char>): (r: Scan)
    ensures |r.p.squares| == 64
  {
    ReadFullmove(fen, ReadHalfmove(fen, ReadEp(fen, ReadCastling(fen, ReadTurn(fen,
      ReadPlacement(fen, Scan(true, Blank(), 0)))))))
  }

  // ----------------------------------------------------------------------
  // Reading back what was written

  /** The text `t` stands in `fen` from index `at`. */
  predicate Reads(fen: seq<char>, at: nat, t: seq<char>)
  {
    forall k :: 0 <= k < |t| ==> At(fen, at + k) == t[k]
  }

  lemma ReadsSplit(fen: seq<char>, at: nat, a: seq<char>, b: seq<char>)
    requires Reads(fen, at, a + b)
    ensures Reads(fen, at, a) && Reads(fen, at + |a|, b)
  {
    forall k | 0 <= k < |a|
      ensures At(fen, at + k) == a[k]
    {
      assert (a + b)[k] == a[k];
    }
    forall k | 0 <= k < |b|
      ensures At(fen, at + |a| + k) == b[k]
    {
      assert (a + b)[|a| + k] == b[k];
    }
  }

  /** Whether the reader leaves a square NOT_MOVED: a pawn on its starting
      rank, or a king or rook home square named by a castling letter. */
  predicate KeptNotMoved(squares: seq<Square>, y: int)
    requires |squares| == 64 && 0 <= y < 64
  {
    HomePawn(squares, y) || Named(CastleText(squares), y)
  }

  /** Whether square `y` holds a pawn on its side's starting rank. */
  predicate HomePawn(squares: seq<Square>, y: int)
    requires |squares| == 64 && 0 <= y < 64
  {
    squares[y].kind == Pawn &&
      ((squares[y].color == White && 8 <= y < 16) || (squares[y].color != White && 48 <= y < 56))
  }

  /** Whether one of the castling letters in `t` names square `y` as a
      king or rook home square. */
  predicate Named(t: seq<char>, y: int)
  {
    ((y == E1 || y == H1) && 'K' in t) ||
    ((y == E1 || y == A1) && 'Q' in t) ||
    ((y == E8 || y == H8) && 'k' in t) ||
    ((y == E8 || y == A8) && 'q' in t)
  }

  /** The board the reader rebuilds from the text of `squares`: the same
      pieces, each NOT_MOVED or HAS_MOVED as KeptNotMoved says. */
  function Recovered(squares: seq<Square>): (r: seq<Square>)
    requires |squares| == 64
    ensures |r| == 64
  {
    seq(64, y requires 0 <= y < 64 =>
      if squares[y].kind == Empty then Clear
      else Square(squares[y].kind, squares[y].color, if KeptNotMoved(squares, y) then NotMoved else HasMoved))
  }

  /** The board after the placement field alone: the same pieces, only
      the pawns on their starting rank NOT_MOVED. */
  function Settled(squares: seq<Square>): (r: seq<Square>)
    requires |squares| == 64
    ensures |r| == 64
  {
    seq(64, y requires 0 <= y < 64 =>
      if squares[y].kind == Empty then Clear
      else Square(squares[y].kind, squares[y].color, if HomePawn(squares, y) then NotMoved else HasMoved))
  }

  /** The castling loop's effect on the board for a run of letters. */
  function ApplyLetters(squares: seq<Square>, t: seq<char>): (r: seq<Square>)
    requires |squares| == 64
    ensures |r| == 64
    decreases |t|
  {
    if t == [] then squares else ApplyLetters(CastleLetter(squares, t[0]), t[1..])
  }

  /** One digit of the placement field skips that many squares. */
  lemma DigitStep(fen: seq<char>, B: seq<Square>, at: nat, squareI: int, i: int, n: int)
    requires |B| == 64 && 1 <= n <= 8 && At(fen, at) == Digit(n) && 0 <= squareI && squareI + n < 256
    ensures ReadRow(fen, B, at, squareI, i) == ReadRow(fen, B, at + 1, squareI + n, i)
  {
    var c := At(fen, at);
    assert '0' < c <= '8' && c as int - '0' as int == n;
    assert (squareI + n) % 256 == squareI + n;
    assert Step(fen, at) == (true, at + 1);
  }

  /** One piece letter of the placement field is written to the current
      square. */
  lemma LetterStep(fen: seq<char>, B: seq<Square>, at: nat, squareI: int, i: int, ch: char)
    requires |B| == 64 && ch in PieceLetters && At(fen, at) == ch && 0 <= squareI < 64
    ensures ReadRow(fen, B, at, squareI, i) == ReadRow(fen, B[squareI := Placed(ch, i)], at + 1, squareI + 1, i)
  {
    assert !('0' < ch <= '8') && ch != '/' && ch != ' ' && ch != Nul;
  }

  /** `B` with the row read in the `i`-th pass over the placement field
      (rank 8 - i) replaced by its settled squares. */
  function Fill(B: seq<Square>, sq: seq<Square>, i: int): (r: seq<Square>)
    requires |B| == 64 && |sq| == 64
    ensures |r| == 64
  {
    seq(64, y requires 0 <= y < 64 => if 56 - 8 * i <= y < 64 - 8 * i then Settled(sq)[y] else B[y])
  }

  lemma FillSame(B: seq<Square>, B': seq<Square>, sq: seq<Square>, i: int)
    requires |B| == 64 && |B'| == 64 && |sq| == 64
    requires forall y :: 0 <= y < 64 && !(56 - 8 * i <= y < 64 - 8 * i) ==> B[y] == B'[y]
    ensures Fill(B, sq, i) == Fill(B', sq, i)
  {
  }

  /** Reading the text `t` of a row from its `j`-th square, with `count`
      empty squares before it not yet skipped, writes the settled squares
      of that row and nothing else, and stops at the row's terminator. */
  lemma {:induction false} RowRead(fen: seq<char>, sq: seq<Square>, row: seq<Square>, B: seq<Square>, at: nat, x: int, i: int, j: int, count: nat, t: seq<char>)
    requires TidyBoard(sq) && |B| == 64 && 0 <= i < 8 && 0 <= count <= j <= 8 && row == Row(sq, 7 - i) && x == 56 - 8 * i + j - count
    requires forall k :: j - count <= k < j ==> row[k].kind == Empty
    requires forall y :: 56 - 8 * i <= y < 64 - 8 * i ==> B[y] == if y < 56 - 8 * i + j then Settled(sq)[y] else Clear
    requires t == Runs(row[j..], count) && Reads(fen, at, t)
    requires At(fen, at + |t|) == '/' || At(fen, at + |t|) == ' '
    ensures ReadRow(fen, B, at, x, i) == (true, Fill(B, sq, i), at + |t|)
    decreases 8 - j, 2
  {
    if j == 8 {
      assert row[j..] == [];
      RowEnd(fen, sq, B, at, x, i, count, t);
    } else if row[j].kind == Empty {
      EmptyRead(fen, sq, row, B, at, x, i, j, count, t);
    } else if count != 0 {
      PendingRead(fen, sq, row, B, at, x, i, j, count, t);
    } else {
      PieceRead(fen, sq, row, B, at, x, i, j, t);
    }
  }

  /** RowRead over an empty square: one more square pending. */
  lemma {:induction false} EmptyRead(fen: seq<char>, sq: seq<Square>, row: seq<Square>, B: seq<Square>, at: nat, x: int, i: int, j: int, count: nat, t: seq<char>)
    requires TidyBoard(sq) && |B| == 64 && 0 <= i < 8 && 0 <= count <= j <= 8 && row == Row(sq, 7 - i) && x == 56 - 8 * i + j - count
    requires forall k :: j - count <= k < j ==> row[k].kind == Empty
    requires forall y :: 56 - 8 * i <= y < 64 - 8 * i ==> B[y] == if y < 56 - 8 * i + j then Settled(sq)[y] else Clear
    requires t == Runs(row[j..], count) && Reads(fen, at, t)
    requires At(fen, at + |t|) == '/' || At(fen, at + |t|) == ' '
    requires j < 8 && row[j].kind == Empty
    ensures ReadRow(fen, B, at, x, i) == (true, Fill(B, sq, i), at + |t|)
    decreases 8 - j, 1
  {
    assert row[j..][1..] == row[j + 1..];
    RowRead(fen, sq, row, B, at, x, i, j + 1, count + 1, t);
  }

  /** RowRead over a piece after a run of empty squares: the run's digit
      skips them. */
  lemma {:induction false} PendingRead(fen: seq<char>, sq: seq<Square>, row: seq<Square>, B: seq<Square>, at: nat, x: int, i: int, j: int, count: nat, t: seq<char>)
    requires TidyBoard(sq) && |B| == 64 && 0 <= i < 8 && 0 <= count <= j <= 8 && row == Row(sq, 7 - i) && x == 56 - 8 * i + j - count
    requires forall k :: j - count <= k < j ==> row[k].kind == Empty
    requires forall y :: 56 - 8 * i <= y < 64 - 8 * i ==> B[y] == if y < 56 - 8 * i + j then Settled(sq)[y] else Clear
    requires t == Runs(row[j..], count) && Reads(fen, at, t)
    requires At(fen, at + |t|) == '/' || At(fen, at + |t|) == ' '
    requires j < 8 && row[j].kind != Empty && count != 0
    ensures ReadRow(fen, B, at, x, i) == (true, Fill(B, sq, i), at + |t|)
    decreases 8 - j, 1
  {
    var u := Runs(row[j..], 0);
    PendingText(row, j, count);
    HeadSplit(fen, at, Digit(count), u);
    PieceRead(fen, sq, row, B, at + 1, x + count, i, j, u);
    DigitStep(fen, B, at, x, i, count);
  }

  /** The end of a row's text: the pending run, if any, then the
      terminator. */
  lemma RowEnd(fen: seq<char>, sq: seq<Square>, B: seq<Square>, at: nat, x: int, i: int, count: nat, t: seq<char>)
    requires |sq| == 64 && |B| == 64 && 0 <= i < 8 && count <= 8 && x == 64 - 8 * i - count
    requires forall y :: 56 - 8 * i <= y < 64 - 8 * i ==> B[y] == Settled(sq)[y]
    requires t == (if count != 0 then [Digit(count)] else []) && Reads(fen, at, t)
    requires At(fen, at + |t|) == '/' || At(fen, at + |t|) == ' '
    ensures ReadRow(fen, B, at, x, i) == (true, Fill(B, sq, i), at + |t|)
  {
    assert B == Fill(B, sq, i);
    if count != 0 {
      assert At(fen, at + 0) == t[0];
      DigitStep(fen, B, at, x, i, count);
    }
  }

  /** Empty squares pending before a piece are written as their count. */
  lemma PendingText(row: seq<Square>, j: int, count: nat)
    requires 0 <= j < |row| && count + |row| - j <= 8 && count != 0 && row[j].kind != Empty
    ensures Runs(row[j..], count) == [Digit(count)] + Runs(row[j..], 0)
  {
  }

  /** RowRead when the `j`-th square of the row holds a piece and no
      empty squares are pending. */
  lemma {:induction false} PieceRead(fen: seq<char>, sq: seq<Square>, row: seq<Square>, B: seq<Square>, at: nat, x: int, i: int, j: int, t: seq<char>)
    requires TidyBoard(sq) && |B| == 64 && 0 <= i < 8 && 0 <= j < 8 && row == Row(sq, 7 - i) && x == 56 - 8 * i + j
    requires row[j].kind != Empty
    requires forall y :: 56 - 8 * i <= y < 64 - 8 * i ==> B[y] == if y < 56 - 8 * i + j then Settled(sq)[y] else Clear
    requires t == Runs(row[j..], 0) && Reads(fen, at, t)
    requires At(fen, at + |t|) == '/' || At(fen, at + |t|) == ' '
    ensures ReadRow(fen, B, at, x, i) == (true, Fill(B, sq, i), at + |t|)
    decreases 8 - j, 0
  {
    var ch := SquareToChar(row[j]);
    var u := Runs(row[j + 1..], 0);
    PieceText(sq, row, x, i, j);
    HeadSplit(fen, at, ch, u);
    RowWrite(sq, B, x, i, j, ch);
    RowRead(fen, sq, row, B[x := Placed(ch, i)], at + 1, x + 1, i, j + 1, 0, u);
    LetterStep(fen, B, at, x, i, ch);
  }

  /** The first character of a text, and the rest of it after that. */
  lemma HeadSplit(fen: seq<char>, at: nat, c: char, u: seq<char>)
    requires Reads(fen, at, [c] + u)
    ensures At(fen, at) == c && Reads(fen, at + 1, u) && |[c] + u| == 1 + |u|
  {
    ReadsSplit(fen, at, [c], u);
    assert At(fen, at + 0) == [c][0];
  }

  /** The text of a row from a piece on: its letter, then the rest. */
  lemma PieceText(sq: seq<Square>, row: seq<Square>, x: int, i: int, j: int)
    requires TidyBoard(sq) && 0 <= i < 8 && 0 <= j < 8 && row == Row(sq, 7 - i) && row[j].kind != Empty
    requires x == 56 - 8 * i + j
    ensures var ch := SquareToChar(row[j]);
      ch in PieceLetters && Settled(sq)[x] == Placed(ch, i) &&
      Runs(row[j..], 0) == [ch] + Runs(row[j + 1..], 0)
  {
    assert row[j] == sq[x] && Tidy(sq[x]);
    PlacedLetter(row[j], i);
    assert row[j..][1..] == row[j + 1..];
  }

  /** Writing the `j`-th settled square of a row extends the settled part
      of that row by one and leaves the rest of the board alone. */
  lemma RowWrite(sq: seq<Square>, B: seq<Square>, x: int, i: int, j: int, ch: char)
    requires |sq| == 64 && |B| == 64 && 0 <= i < 8 && 0 <= j < 8 && x == 56 - 8 * i + j
    requires Settled(sq)[x] == Placed(ch, i)
    requires forall y :: 56 - 8 * i <= y < 64 - 8 * i ==> B[y] == if y < 56 - 8 * i + j then Settled(sq)[y] else Clear
    ensures var B' := B[x := Placed(ch, i)];
      Fill(B', sq, i) == Fill(B, sq, i) &&
      forall y :: 56 - 8 * i <= y < 64 - 8 * i ==> B'[y] == if y < 56 - 8 * i + (j + 1) then Settled(sq)[y] else Clear
  {
    FillSame(B, B[x := Placed(ch, i)], sq, i);
  }

  /** Reading one row of the placement field and stepping over its
      terminator. */
  lemma BoardStep(fen: seq<char>, sq: seq<Square>, B: seq<Square>, at: nat, i: int, rt: seq<char>)
    requires TidyBoard(sq) && |B| == 64 && 0 <= i < 8
    requires forall y :: 56 - 8 * i <= y < 64 - 8 * i ==> B[y] == Clear
    requires rt == Runs(Row(sq, 7 - i), 0) && Reads(fen, at, rt)
    requires At(fen, at + |rt|) == '/' || At(fen, at + |rt|) == ' '
    ensures ReadBoard(fen, B, at, i) == ReadBoard(fen, Fill(B, sq, i), at + |rt| + 1, i + 1)
  {
    WholeRow(fen, sq, B, at, i, rt);
    assert At(fen, at + |rt|) != Nul;
  }

  /** Reading one whole row of the placement field. */
  lemma WholeRow(fen: seq<char>, sq: seq<Square>, B: seq<Square>, at: nat, i: int, rt: seq<char>)
    requires TidyBoard(sq) && |B| == 64 && 0 <= i < 8
    requires forall y :: 56 - 8 * i <= y < 64 - 8 * i ==> B[y] == Clear
    requires rt == Runs(Row(sq, 7 - i), 0) && Reads(fen, at, rt)
    requires At(fen, at + |rt|) == '/' || At(fen, at + |rt|) == ' '
    ensures ReadRow(fen, B, at, 56 - 8 * i, i) == (true, Fill(B, sq, i), at + |rt|)
  {
    var row := Row(sq, 7 - i);
    assert row[0..] == row;
    RowRead(fen, sq, row, B, at, 56 - 8 * i, i, 0, 0, rt);
  }

  /** Reading the placement field from row `i` on, over a board whose
      earlier rows are settled and whose later rows are clear, settles the
      whole board and stops after the space that ends the field. */
  lemma {:induction false} BoardRead(fen: seq<char>, sq: seq<Square>, B: seq<Square>, at: nat, i: int, t: seq<char>)
    requires TidyBoard(sq) && |B| == 64 && 0 <= i <= 8
    requires forall y :: 0 <= y < 64 ==> B[y] == if y >= 64 - 8 * i then Settled(sq)[y] else Clear
    requires t == PlacementFrom(sq, i) && Reads(fen, at, t) && (i < 8 ==> At(fen, at + |t|) == ' ')
    ensures ReadBoard(fen, B, at, i).0 && ReadBoard(fen, B, at, i).1 == Settled(sq)
    ensures ReadBoard(fen, B, at, i).2 == if i < 8 then at + |t| + 1 else at
    decreases 8 - i
  {
    if i == 8 {
      BoardSettled(sq, B);
    } else {
      var rt, rest := PlacementSplit(fen, sq, at, i, t);
      FillNext(sq, B, i);
      BoardRead(fen, sq, Fill(B, sq, i), at + |rt| + 1, i + 1, rest);
      BoardStep(fen, sq, B, at, i, rt);
    }
  }

  /** The placement field from row `i` on, in the text: the row's runs,
      its terminator, then the rows after it. */
  lemma PlacementSplit(fen: seq<char>, sq: seq<Square>, at: nat, i: int, t: seq<char>) returns (rt: seq<char>, rest: seq<char>)
    requires |sq| == 64 && 0 <= i < 8
    requires t == PlacementFrom(sq, i) && Reads(fen, at, t) && At(fen, at + |t|) == ' '
    ensures rt == Runs(Row(sq, 7 - i), 0) && rest == PlacementFrom(sq, i + 1)
    ensures Reads(fen, at, rt) && (At(fen, at + |rt|) == '/' || At(fen, at + |rt|) == ' ')
    ensures Reads(fen, at + |rt| + 1, rest)
    ensures i + 1 < 8 ==> At(fen, at + |rt| + 1 + |rest|) == ' '
    ensures (if i + 1 < 8 then at + |rt| + 1 + |rest| + 1 else at + |rt| + 1) == at + |t| + 1
  {
    rt := Runs(Row(sq, 7 - i), 0);
    rest := PlacementFrom(sq, i + 1);
    var slash := if i != 7 then "/" else "";
    assert t == rt + (slash + rest);
    ReadsSplit(fen, at, rt, slash + rest);
    if i != 7 {
      ReadsSplit(fen, at + |rt|, slash, rest);
      assert At(fen, at + |rt| + 0) == slash[0];
    } else {
      assert rest == [];
    }
  }

  /** A board whose every square is settled is the settled board. */
  lemma BoardSettled(sq: seq<Square>, B: seq<Square>)
    requires |sq| == 64 && |B| == 64
    requires forall y :: 0 <= y < 64 ==> B[y] == if y >= 0 then Settled(sq)[y] else Clear
    ensures B == Settled(sq)
  {
    forall y | 0 <= y < 64
      ensures B[y] == Settled(sq)[y]
    {
    }
  }

  /** Filling row `i` settles one more row of the board. */
  lemma FillNext(sq: seq<Square>, B: seq<Square>, i: int)
    requires |sq| == 64 && |B| == 64 && 0 <= i < 8
    requires forall y :: 0 <= y < 64 ==> B[y] == if y >= 64 - 8 * i then Settled(sq)[y] else Clear
    ensures forall y :: 0 <= y < 64 ==> Fill(B, sq, i)[y] == if y >= 64 - 8 * (i + 1) then Settled(sq)[y] else Clear
  {
  }

  /** The castling letters mark NOT_MOVED exactly the squares they name. */
  lemma {:induction false} ApplyLettersAt(squares: seq<Square>, t: seq<char>, y: int)
    requires |squares| == 64 && 0 <= y < 64
    ensures ApplyLetters(squares, t)[y] == if Named(t, y) then squares[y].(moved := NotMoved) else squares[y]
    decreases |t|
  {
    if t != [] {
      var c := t[0];
      var s' := CastleLetter(squares, c);
      ApplyLettersAt(s', t[1..], y);
      assert s'[y] == if Named([c], y) then squares[y].(moved := NotMoved) else squares[y];
      assert forall l :: l in t <==> l == c || l in t[1..] by {
        assert t == [c] + t[1..];
      }
    }
  }

  /** The placement field and the castling letters read back give the
      recovered board. */
  lemma LettersRecover(sq: seq<Square>)
    requires TidyBoard(sq)
    ensures ApplyLetters(Settled(sq), CastleText(sq)) == Recovered(sq)
  {
    forall y | 0 <= y < 64
      ensures ApplyLetters(Settled(sq), CastleText(sq))[y] == Recovered(sq)[y]
    {
      RecoverAt(sq, y);
    }
  }

  lemma RecoverAt(sq: seq<Square>, y: int)
    requires TidyBoard(sq) && 0 <= y < 64
    ensures ApplyLetters(Settled(sq), CastleText(sq))[y] == Recovered(sq)[y]
  {
    var S, t := Settled(sq), CastleText(sq);
    ApplyLettersAt(S, t, y);
    assert Tidy(sq[y]);
    if sq[y].kind == Empty {
      NamedOccupied(sq, y);
      assert ApplyLetters(S, t)[y] == Clear;
    }
  }

  /** The castling letters only name squares that hold a piece. */
  lemma NamedOccupied(sq: seq<Square>, y: int)
    requires |sq| == 64 && 0 <= y < 64
    ensures Named(CastleText(sq), y) ==> sq[y].kind != Empty
  {
  }

  /** A piece written as its letter and read back on row `i`. */
  lemma PlacedLetter(s: Square, i: int)
    requires Tidy(s) && s.kind != Empty
    ensures Placed(SquareToChar(s), i) == Square(s.kind, s.color,
      if s.kind == Pawn && ((s.color == White && i == 6) || (s.color != White && i == 1)) then NotMoved else HasMoved)
  {
    SquareLetterRoundTrip(s);
  }

  /** The castling letters are read up to the space after them. */
  lemma {:induction false} LettersRead(fen: seq<char>, B: seq<Square>, at: nat, t: seq<char>)
    requires |B| == 64 && forall k :: 0 <= k < |t| ==> t[k] in "KQkq"
    requires Reads(fen, at, t) && At(fen, at + |t|) == ' '
    ensures ReadCastle(fen, B, at) == (true, ApplyLetters(B, t), at + |t|)
    decreases |t|
  {
    if t != [] {
      ReadsSplit(fen, at, [t[0]], t[1..]);
      assert [t[0]] + t[1..] == t;
      assert At(fen, at + 0) == [t[0]][0];
      LettersRead(fen, CastleLetter(B, t[0]), at + 1, t[1..]);
    }
  }

  /** The counter loop reads a run of digits up to the first non-digit. */
  lemma {:induction false} CountRead(fen: seq<char>, count: nat, at: nat, t: seq<char>)
    requires forall k :: 0 <= k < |t| ==> '0' <= t[k] <= '9'
    requires Reads(fen, at, t) && !('0' <= At(fen, at + |t|) <= '9')
    ensures ReadCount(fen, count, at) == (true, Accumulate(count, t), at + |t|)
    decreases |t|
  {
    if t != [] {
      ReadsSplit(fen, at, [t[0]], t[1..]);
      assert [t[0]] + t[1..] == t;
      assert At(fen, at + 0) == [t[0]][0];
      CountRead(fen, count * 10 + (t[0] as int - '0' as int), at + 1, t[1..]);
    }
  }

  /** A number written in decimal is read back as itself. */
  lemma NumberRead(fen: seq<char>, at: nat, n: nat)
    requires Reads(fen, at, Decimal(n)) && At(fen, at + |Decimal(n)|) == ' '
    ensures ReadCount(fen, 0, at) == (true, n, at + |Decimal(n)|)
  {
    CountRead(fen, 0, at, Decimal(n));
    DecimalValue(n);
  }

  /** The placement field, read over the all-clear board. */
  lemma PlacementPhase(fen: seq<char>, sq: seq<Square>)
    requires TidyBoard(sq) && Reads(fen, 0, PlacementFrom(sq, 0)) && At(fen, |PlacementFrom(sq, 0)|) == ' '
    ensures ReadPlacement(fen, Scan(true, Blank(), 0)) ==
      Scan(true, Blank().(squares := Settled(sq)), |PlacementFrom(sq, 0)| + 1)
  {
    BoardRead(fen, sq, Blank().squares, 0, 0, PlacementFrom(sq, 0));
  }

  /** The side to move, read back. */
  lemma TurnPhase(fen: seq<char>, s: Scan, turn: Color)
    requires s.ok && |s.p.squares| == 64 && (turn == White || turn == Black)
    requires Reads(fen, s.at, [TurnChar(turn)] + " ")
    ensures ReadTurn(fen, s) == Scan(true, s.p.(turn := turn), s.at + 2)
  {
    assert At(fen, s.at + 0) == ([TurnChar(turn)] + " ")[0];
    assert At(fen, s.at + 1) == ([TurnChar(turn)] + " ")[1];
  }

  /** The castling field, read back: its letters applied to the board. */
  lemma CastlingPhase(fen: seq<char>, s: Scan, sq: seq<Square>)
    requires s.ok && |s.p.squares| == 64 && |sq| == 64
    requires Reads(fen, s.at, CastleField(sq) + " ")
    ensures ReadCastling(fen, s) ==
      Scan(true, s.p.(squares := ApplyLetters(s.p.squares, CastleText(sq))), s.at + |CastleField(sq)| + 1)
  {
    var f := CastleField(sq);
    ReadsSplit(fen, s.at, f, " ");
    assert At(fen, s.at + |f| + 0) == " "[0];
    assert At(fen, s.at + 0) == f[0];
    if CastleText(sq) != [] {
      assert forall k :: 0 <= k < |f| ==> f[k] in "KQkq";
      LettersRead(fen, s.p.squares, s.at, f);
    }
  }

  /** The en-passant field, read back over a position without one. */
  lemma EpPhase(fen: seq<char>, s: Scan, ep: int)
    requires s.ok && |s.p.squares| == 64 && s.p.ep == XX && (ep == XX || 0 <= ep < XX)
    requires Reads(fen, s.at, EpField(ep) + " ")
    ensures ReadEp(fen, s) == Scan(true, s.p.(ep := ep), s.at + |EpField(ep)| + 1)
  {
    var f := EpField(ep);
    ReadsSplit(fen, s.at, f, " ");
    assert At(fen, s.at + |f| + 0) == " "[0];
    assert At(fen, s.at + 0) == f[0];
    if ep != XX {
      assert At(fen, s.at + 1) == f[1];
      var c := Coordinate(ep);
      StringToPositionReadsTwo([At(fen, s.at), At(fen, s.at + 1), Nul], c);
      CoordinateRoundTrip(ep);
    }
  }

  /** The half-move counter, read back. */
  lemma HalfmovePhase(fen: seq<char>, s: Scan, n: int)
    requires s.ok && |s.p.squares| == 64 && 0 <= n < CounterModulus
    requires Reads(fen, s.at, Decimal(n) + " ")
    ensures ReadHalfmove(fen, s) == Scan(true, s.p.(halfmove := n), s.at + |Decimal(n)| + 1)
  {
    ReadsSplit(fen, s.at, Decimal(n), " ");
    assert At(fen, s.at + |Decimal(n)| + 0) == " "[0];
    NumberRead(fen, s.at, n);
  }

  /** The full-move counter, read back; the reader stops on the space
      after it. */
  lemma FullmovePhase(fen: seq<char>, s: Scan, n: int)
    requires s.ok && |s.p.squares| == 64 && 0 <= n < CounterModulus
    requires Reads(fen, s.at, Decimal(n) + " ")
    ensures ReadFullmove(fen, s) == Scan(true, s.p.(fullmove := n), s.at + |Decimal(n)|)
  {
    ReadsSplit(fen, s.at, Decimal(n), " ");
    assert At(fen, s.at + |Decimal(n)| + 0) == " "[0];
    NumberRead(fen, s.at, n);
  }

  lemma ReadsJoin(fen: seq<char>, at: nat, a: seq<char>, b: seq<char>)
    requires Reads(fen, at, a) && Reads(fen, at + |a|, b)
    ensures Reads(fen, at, a + b)
  {
    forall k | 0 <= k < |a + b|
      ensures At(fen, at + k) == (a + b)[k]
    {
      if k >= |a| {
        assert At(fen, at + |a| + (k - |a|)) == b[k - |a|];
      }
    }
  }

  /** FEN round trip: the text written for a position with a tidy board,
      a side to move, no en-passant square or one on the board, and 16-bit
      counters is read back, stopping on its final space, as the same
      position with the moved status of every piece recovered from the
      text (Recovered). */
  lemma FenRoundTrip(p: Position)
    requires TidyBoard(p.squares) && (p.turn == White || p.turn == Black)
    requires p.ep == XX || 0 <= p.ep < XX
    requires 0 <= p.halfmove < CounterModulus && 0 <= p.fullmove < CounterModulus
    ensures ReadFen(FenText(p)) ==
      Scan(true, Position(Recovered(p.squares), p.ep, p.turn, p.halfmove, p.fullmove), |FenText(p)| - 1)
  {
    var a1, a2, a3, a4, a5 := FenLayout(p);
    FieldsRead(FenText(p), p, a1, a2, a3, a4, a5);
  }

  /** Where each field of the written text starts. */
  lemma FenLayout(p: Position) returns (a1: nat, a2: nat, a3: nat, a4: nat, a5: nat)
    requires |p.squares| == 64 && 0 <= p.ep && 0 <= p.halfmove && 0 <= p.fullmove
    ensures var fen := FenText(p);
      Reads(fen, 0, PlacementFrom(p.squares, 0)) && At(fen, |PlacementFrom(p.squares, 0)|) == ' ' &&
      a1 == |PlacementFrom(p.squares, 0)| + 1 && Reads(fen, a1, [TurnChar(p.turn)] + " ") &&
      a2 == a1 + 2 && Reads(fen, a2, CastleField(p.squares) + " ") &&
      a3 == a2 + |CastleField(p.squares)| + 1 && Reads(fen, a3, EpField(p.ep) + " ") &&
      a4 == a3 + |EpField(p.ep)| + 1 && Reads(fen, a4, Decimal(p.halfmove) + " ") &&
      a5 == a4 + |Decimal(p.halfmove)| + 1 && Reads(fen, a5, Decimal(p.fullmove) + " ") &&
      |fen| == a5 + |Decimal(p.fullmove)| + 1
  {
    var sq := p.squares;
    a1, a2, a3, a4, a5 := TextLayout(FenText(p), PlacementFrom(sq, 0), [TurnChar(p.turn)] + " ",
      CastleField(sq) + " ", EpField(p.ep) + " ", Decimal(p.halfmove) + " ", Decimal(p.fullmove) + " ");
  }

  /** Where each of six texts joined by one space after the first starts. */
  lemma TextLayout(fen: seq<char>, P: seq<char>, T: seq<char>, C: seq<char>, E: seq<char>, H: seq<char>, F: seq<char>)
    returns (a1: nat, a2: nat, a3: nat, a4: nat, a5: nat)
    requires fen == P + " " + (T + (C + (E + (H + F))))
    ensures Reads(fen, 0, P) && At(fen, |P|) == ' ' && a1 == |P| + 1
    ensures Reads(fen, a1, T) && a2 == a1 + |T| && Reads(fen, a2, C) && a3 == a2 + |C|
    ensures Reads(fen, a3, E) && a4 == a3 + |E| && Reads(fen, a4, H) && a5 == a4 + |H|
    ensures Reads(fen, a5, F) && |fen| == a5 + |F|
  {
    var r2 := C + (E + (H + F));
    a1 := |P| + 1;
    assert Reads(fen, 0, P) && At(fen, |P|) == ' ' && Reads(fen, a1, T + r2) by {
      assert Reads(fen, 0, fen);
      ReadsSplit(fen, 0, P + " ", T + r2);
      ReadsSplit(fen, 0, P, " ");
      assert At(fen, |P| + 0) == " "[0];
    }
    a2, a3, a4, a5 := a1 + |T|, a1 + |T| + |C|, a1 + |T| + |C| + |E|, a1 + |T| + |C| + |E| + |H|;
    TailLayout(fen, a1, T, C, E, H, F);
  }

  /** The last five texts of TextLayout. */
  lemma TailLayout(fen: seq<char>, a1: nat, T: seq<char>, C: seq<char>, E: seq<char>, H: seq<char>, F: seq<char>)
    requires Reads(fen, a1, T + (C + (E + (H + F))))
    ensures Reads(fen, a1, T) && Reads(fen, a1 + |T|, C) && Reads(fen, a1 + |T| + |C|, E)
    ensures Reads(fen, a1 + |T| + |C| + |E|, H) && Reads(fen, a1 + |T| + |C| + |E| + |H|, F)
  {
    ReadsSplit(fen, a1, T, C + (E + (H + F)));
    ReadsSplit(fen, a1 + |T|, C, E + (H + F));
    ReadsSplit(fen, a1 + |T| + |C|, E, H + F);
    ReadsSplit(fen, a1 + |T| + |C| + |E|, H, F);
  }

  /** The reader's phases, one field each, over the written text. */
  lemma FieldsRead(fen: seq<char>, p: Position, a1: nat, a2: nat, a3: nat, a4: nat, a5: nat)
    requires TidyBoard(p.squares) && (p.turn == White || p.turn == Black)
    requires p.ep == XX || 0 <= p.ep < XX
    requires 0 <= p.halfmove < CounterModulus && 0 <= p.fullmove < CounterModulus
    requires Reads(fen, 0, PlacementFrom(p.squares, 0)) && At(fen, |PlacementFrom(p.squares, 0)|) == ' '
    requires a1 == |PlacementFrom(p.squares, 0)| + 1 && Reads(fen, a1, [TurnChar(p.turn)] + " ")
    requires a2 == a1 + 2 && Reads(fen, a2, CastleField(p.squares) + " ")
    requires a3 == a2 + |CastleField(p.squares)| + 1 && Reads(fen, a3, EpField(p.ep) + " ")
    requires a4 == a3 + |EpField(p.ep)| + 1 && Reads(fen, a4, Decimal(p.halfmove) + " ")
    requires a5 == a4 + |Decimal(p.halfmove)| + 1 && Reads(fen, a5, Decimal(p.fullmove) + " ")
    requires |fen| == a5 + |Decimal(p.fullmove)| + 1
    ensures ReadFen(fen) == Scan(true, Position(Recovered(p.squares), p.ep, p.turn, p.halfmove, p.fullmove), |fen| - 1)
  {
    var sq := p.squares;
    var s0 := Scan(true, Blank(), 0);
    var s1 := Scan(true, Blank().(squares := Settled(sq)), a1);
    assert ReadPlacement(fen, s0) == s1 by { PlacementPhase(fen, sq); }
    var s2 := Scan(true, s1.p.(turn := p.turn), a2);
    assert ReadTurn(fen, s1) == s2 by { TurnPhase(fen, s1, p.turn); }
    var s3 := Scan(true, s2.p.(squares := Recovered(sq)), a3);
    assert ReadCastling(fen, s2) == s3 by {
      CastlingPhase(fen, s2, sq);
      LettersRecover(sq);
    }
    var s4 := Scan(true, s3.p.(ep := p.ep), a4);
    assert ReadEp(fen, s3) == s4 by { EpPhase(fen, s3, p.ep); }
    var s5 := Scan(true, s4.p.(halfmove := p.halfmove), a5);
    assert ReadHalfmove(fen, s4) == s5 by { HalfmovePhase(fen, s4, p.halfmove); }
    assert ReadFullmove(fen, s5) == Scan(true, s5.p.(fullmove := p.fullmove), |fen| - 1) by {
      FullmovePhase(fen, s5, p.fullmove);
    }
  }

}
