/** The FEN writer and reader of farewell_to_king_strings.c as they work on
    the game: the writer fills a zeroed character buffer one character at a
    time, the reader rebuilds the game in place and stops at the first
    string-index step that would pass the terminating NUL. Both are proved
    against the text and the scan of module Fen. */
module FenGame {
  import opened Types
  import opened Masks
  import opened Moves
  import opened Engine
  import opened Notation
  import opened Fen

  // ----------------------------------------------------------------------
  // The output buffer

  /** A buffer of `n` characters holding `w` and zeros after it. */
  function Padded(w: seq<char>, n: nat): (r: seq<char>)
    requires |w| <= n
    ensures |r| == n
  {
    w + seq(n - |w|, _ => Nul)
  }

  lemma PadPush(w: seq<char>, c: char, n: nat)
    requires |w| < n
    ensures Padded(w, n)[|w| := c] == Padded(w + [c], n)
  {
  }

  /** `output[outI] = c; outI++;` */
  method Emit(output: array<char>, outI: nat, c: char, ghost written: seq<char>) returns (next: nat)
    requires outI == |written| < output.Length && output[..] == Padded(written, output.Length)
    modifies output
    ensures next == outI + 1 && output[..] == Padded(written + [c], output.Length)
  {
    output[outI] := c;
    next := outI + 1;
    PadPush(written, c, output.Length);
  }

  // ----------------------------------------------------------------------
  // The writer

  /** Writing `b` and then `c` after `w` writes `b + c`. */
  lemma Append3(w: seq<char>, b: seq<char>, c: seq<char>)
    ensures w + (b + c) == w + b + c
  {
  }

  /** One empty square more is pending, or a piece is written after the
      pending run. */
  lemma RunsStep(row: seq<Square>, j: int, count: nat)
    requires 0 <= j < |row| && count + |row| - j <= 8 && count < 10
    ensures row[j].kind == Empty ==> Runs(row[j..], count) == Runs(row[j + 1..], count + 1)
    ensures row[j].kind != Empty ==>
      Runs(row[j..], count) == Pending(count) + [SquareToChar(row[j])] + Runs(row[j + 1..], 0)
  {
    assert row[j..][1..] == row[j + 1..];
  }

  /** A piece after `count` pending empty squares: their digit, if any,
      then the piece's letter. */
  method WritePiece(output: array<char>, outI: nat, count: int, c: char, ghost written: seq<char>)
      returns (next: nat)
    requires 0 <= count < 10 && outI == |written|
    requires |written| + |Pending(count)| + 1 <= output.Length
    requires output[..] == Padded(written, output.Length)
    modifies output
    ensures next == outI + |Pending(count)| + 1
    ensures output[..] == Padded(written + Pending(count) + [c], output.Length)
  {
    next := outI;
    if count != 0 {
      next := Emit(output, next, Digit(count), written);
    }
    next := Emit(output, next, c, written + Pending(count));
  }

  /** The digit of `count` pending empty squares, or nothing. */
  function Pending(count: int): seq<char>
    requires 0 <= count < 10
  {
    if count != 0 then [Digit(count)] else []
  }

  /** The inner loop of ftk_game_to_fen_string over rank `i`. */
  method WriteRank(output: array<char>, outI: nat, board: array<Square>, i: int, ghost written: seq<char>)
      returns (next: nat)
    requires board.Length == 64 && 0 <= i < 8
    requires outI == |written| && |written| + |Runs(Row(board[..], i), 0)| <= output.Length
    requires output[..] == Padded(written, output.Length)
    modifies output
    ensures next == outI + |Runs(Row(board[..], i), 0)|
    ensures output[..] == Padded(written + Runs(Row(board[..], i), 0), output.Length)
  {
    ghost var row := Row(board[..], i);
    ghost var goal := written + Runs(row, 0);
    ghost var w := written;
    var count := 0;
    next := outI;
    for j := 0 to 8
      invariant 0 <= count <= j && next == |w|
      invariant w + Runs(row[j..], count) == goal
      invariant output[..] == Padded(w, output.Length)
    {
      if board[i * 8 + j].kind == Empty {
        RankEmpty(row, j, count, w, goal);
        count := count + 1;
      } else {
        RankPiece(row, j, count, w, goal);
        next := WritePiece(output, next, count, SquareToChar(board[i * 8 + j]), w);
        w := w + Pending(count) + [SquareToChar(row[j])];
        count := 0;
      }
    }
    RankEnd(row, count, w, goal);
    next := EmitWhen(output, next, count != 0, Digit(count), w);
  }

  lemma RankEmpty(row: seq<Square>, j: int, count: nat, w: seq<char>, goal: seq<char>)
    requires |row| == 8 && 0 <= count <= j < 8 && row[j].kind == Empty
    requires w + Runs(row[j..], count) == goal
    ensures w + Runs(row[j + 1..], count + 1) == goal
  {
    RunsStep(row, j, count);
  }

  lemma RankPiece(row: seq<Square>, j: int, count: nat, w: seq<char>, goal: seq<char>)
    requires |row| == 8 && 0 <= count <= j < 8 && row[j].kind != Empty
    requires w + Runs(row[j..], count) == goal
    ensures w + Pending(count) + [SquareToChar(row[j])] + Runs(row[j + 1..], 0) == goal
  {
    RunsStep(row, j, count);
    Append3(w, Pending(count) + [SquareToChar(row[j])], Runs(row[j + 1..], 0));
  }

  lemma RankEnd(row: seq<Square>, count: nat, w: seq<char>, goal: seq<char>)
    requires |row| == 8 && count <= 8
    requires w + Runs(row[8..], count) == goal
    ensures w + Pending(count) == goal
  {
    assert row[8..] == [];
  }

  /** One rank of the placement field and the '/' after it, for every
      rank but the first. */
  method WriteBlock(output: array<char>, outI: nat, board: array<Square>, k: int, ghost written: seq<char>)
      returns (next: nat)
    requires board.Length == 64 && 0 <= k < 8
    requires outI == |written| && |written| + |Block(board[..], k)| <= output.Length
    requires output[..] == Padded(written, output.Length)
    modifies output
    ensures next == outI + |Block(board[..], k)|
    ensures output[..] == Padded(written + Block(board[..], k), output.Length)
  {
    ghost var t := Runs(Row(board[..], 7 - k), 0);
    next := WriteRank(output, outI, board, 7 - k, written);
    if k != 7 {
      next := Emit(output, next, '/', written + t);
      assert written + t + "/" == written + Block(board[..], k);
    } else {
      assert written + t == written + Block(board[..], k);
    }
  }

  /** The rank loop of ftk_game_to_fen_string: ranks 8 down to 1 (block
      `k` is rank 8 - k), each but the last followed by '/'. */
  method WritePlacement(output: array<char>, board: array<Square>) returns (next: nat)
    requires board.Length == 64 && |PlacementFrom(board[..], 0)| <= output.Length
    requires output[..] == Padded([], output.Length)
    modifies output
    ensures next == |PlacementFrom(board[..], 0)|
    ensures output[..] == Padded(PlacementFrom(board[..], 0), output.Length)
  {
    ghost var sq := board[..];
    ghost var w: seq<char> := [];
    next := 0;
    for k := 0 to 8
      invariant next == |w| && w + PlacementFrom(sq, k) == PlacementFrom(sq, 0)
      invariant output[..] == Padded(w, output.Length)
    {
      PlacementStep(sq, w, k);
      next := WriteBlock(output, next, board, k, w);
      w := w + Block(sq, k);
    }
  }

  lemma PlacementStep(sq: seq<Square>, w: seq<char>, k: int)
    requires |sq| == 64 && 0 <= k < 8 && w + PlacementFrom(sq, k) == PlacementFrom(sq, 0)
    ensures w + Block(sq, k) + PlacementFrom(sq, k + 1) == PlacementFrom(sq, 0)
    ensures |w| + |Block(sq, k)| <= |PlacementFrom(sq, 0)|
  {
    Append3(w, Block(sq, k), PlacementFrom(sq, k + 1));
  }

  /** `output[outI] = c; outI++;` when `cond` holds, nothing otherwise. */
  method EmitWhen(output: array<char>, outI: nat, cond: bool, c: char, ghost written: seq<char>)
      returns (next: nat)
    requires outI == |written| && |written| + (if cond then 1 else 0) <= output.Length
    requires output[..] == Padded(written, output.Length)
    modifies output
    ensures next == outI + (if cond then 1 else 0)
    ensures output[..] == Padded(written + (if cond then [c] else []), output.Length)
  {
    next := outI;
    if cond {
      next := Emit(output, outI, c, written);
    } else {
      assert written + [] == written;
    }
  }

  lemma CastleSplit(sq: seq<Square>, w: seq<char>, k: seq<char>, q: seq<char>, k': seq<char>, q': seq<char>)
    requires |sq| == 64
    requires k == if SquareIs(sq[E1], King, White, NotMoved) && SquareIs(sq[H1], Rook, White, NotMoved) then "K" else ""
    requires q == if SquareIs(sq[E1], King, White, NotMoved) && SquareIs(sq[A1], Rook, White, NotMoved) then "Q" else ""
    requires k' == if SquareIs(sq[E8], King, Black, NotMoved) && SquareIs(sq[H8], Rook, Black, NotMoved) then "k" else ""
    requires q' == if SquareIs(sq[E8], King, Black, NotMoved) && SquareIs(sq[A8], Rook, Black, NotMoved) then "q" else ""
    ensures w + CastleText(sq) == w + k + q + k' + q'
    ensures |CastleText(sq)| == |k| + |q| + |k'| + |q'|
  {
  }

  /** The castling field: K, Q, k, q as the king and rook pairs allow, or
      '-' when none does. */
  method WriteCastling(output: array<char>, outI: nat, board: array<Square>, ghost written: seq<char>)
      returns (next: nat)
    requires board.Length == 64 && outI == |written| && |written| + |CastleField(board[..])| <= output.Length
    requires output[..] == Padded(written, output.Length)
    modifies output
    ensures next == outI + |CastleField(board[..])|
    ensures output[..] == Padded(written + CastleField(board[..]), output.Length)
  {
    ghost var sq := board[..];
    var whiteKing := SquareIs(board[E1], King, White, NotMoved);
    var blackKing := SquareIs(board[E8], King, Black, NotMoved);
    var cK := whiteKing && SquareIs(board[H1], Rook, White, NotMoved);
    var cQ := whiteKing && SquareIs(board[A1], Rook, White, NotMoved);
    var ck := blackKing && SquareIs(board[H8], Rook, Black, NotMoved);
    var cq := blackKing && SquareIs(board[A8], Rook, Black, NotMoved);
    ghost var k: seq<char> := if cK then "K" else "";
    ghost var q: seq<char> := if cQ then "Q" else "";
    ghost var k': seq<char> := if ck then "k" else "";
    ghost var q': seq<char> := if cq then "q" else "";
    CastleSplit(sq, written, k, q, k', q');
    assert |written| + |k| + |q| + |k'| + |q'| <= output.Length;
    next := EmitWhen(output, outI, cK, 'K', written);
    next := EmitWhen(output, next, cQ, 'Q', written + k);
    next := EmitWhen(output, next, ck, 'k', written + k + q);
    next := EmitWhen(output, next, cq, 'q', written + k + q + k');
    var castle := !(cK || cQ || ck || cq);
    if castle {
      assert CastleField(sq) == "-";
      next := Emit(output, next, '-', written + CastleText(sq));
    } else {
      assert CastleField(sq) == CastleText(sq);
    }
  }

  /** A counter in decimal: the number of digits first, then each digit by
      dividing the whole number once for every digit after it; "0" for
      zero. */
  method WriteNumber(output: array<char>, outI: nat, n: int, ghost written: seq<char>) returns (next: nat)
    requires 0 <= n && outI == |written| && |written| + |Decimal(n)| <= output.Length
    requires output[..] == Padded(written, output.Length)
    modifies output
    ensures next == outI + |Decimal(n)|
    ensures output[..] == Padded(written + Decimal(n), output.Length)
  {
    ghost var t := Decimal(n);
    DecimalDigits(n);
    if n != 0 {
      var digits := 0;
      var num := n;
      while num != 0
        invariant 0 <= digits <= |t| && num == Shifted(n, digits)
        decreases num
      {
        digits := digits + 1;
        num := num / 10;
      }
      ghost var w := written;
      next := outI;
      for i := 0 to digits
        invariant next == |w| && w == written + t[..i]
        invariant output[..] == Padded(w, output.Length)
      {
        num := n;
        for j := i + 1 to digits
          invariant num == Shifted(n, j - i - 1)
        {
          num := num / 10;
        }
        assert t[i] == (num % 10 + '0' as int) as char;
        next := Emit(output, next, (num % 10 + '0' as int) as char, w);
        w := w + [t[i]];
        assert t[..i + 1] == t[..i] + [t[i]];
      }
      assert t[..digits] == t;
    } else {
      next := Emit(output, outI, '0', written);
    }
  }

  /** The en-passant field: the square's two coordinate characters as
      ftk_position_to_string writes them, or '-' for XX. */
  method WriteEp(output: array<char>, outI: nat, ep: int, ghost written: seq<char>) returns (next: nat)
    requires 0 <= ep <= XX && outI == |written| && |written| + |EpField(ep)| <= output.Length
    requires output[..] == Padded(written, output.Length)
    modifies output
    ensures next == outI + |EpField(ep)|
    ensures output[..] == Padded(written + EpField(ep), output.Length)
  {
    if ep != XX {
      var coordinate := new char[8];
      PositionToString(ep, coordinate, 0);
      assert coordinate[0] == Coordinate(ep)[0] && coordinate[1] == Coordinate(ep)[1];
      next := Emit(output, outI, coordinate[0], written);
      next := Emit(output, next, coordinate[1], written + [Coordinate(ep)[0]]);
      assert written + [Coordinate(ep)[0]] + [Coordinate(ep)[1]] == written + EpField(ep);
    } else {
      next := Emit(output, outI, '-', written);
    }
  }

  /** The side to move: 'w' for White, 'b' otherwise. */
  method WriteTurn(output: array<char>, outI: nat, turn: Color, ghost written: seq<char>) returns (next: nat)
    requires outI == |written| && |written| + 1 <= output.Length
    requires output[..] == Padded(written, output.Length)
    modifies output
    ensures next == outI + 1
    ensures output[..] == Padded(written + [TurnChar(turn)], output.Length)
  {
    if turn == White {
      next := Emit(output, outI, 'w', written);
    } else {
      next := Emit(output, outI, 'b', written);
    }
  }

  /** memset(output, 0, size): the buffer holds nothing yet. */
  method ZeroBuffer(output: array<char>)
    modifies output
    ensures output[..] == Padded([], output.Length)
  {
    for k := 0 to output.Length
      invariant output[..k] == seq(k, _ => Nul)
    {
      output[k] := Nul;
      assert output[..k + 1] == output[..k] + [Nul];
    }
    assert output[..] == output[..output.Length];
  }

  /** The two counters, each followed by a space. */
  method WriteCounters(output: array<char>, outI: nat, halfmove: int, fullmove: int, ghost written: seq<char>)
      returns (next: nat)
    requires 0 <= halfmove && 0 <= fullmove && outI == |written|
    requires |written| + |Decimal(halfmove) + " " + (Decimal(fullmove) + " ")| <= output.Length
    requires output[..] == Padded(written, output.Length)
    modifies output
    ensures output[..] == Padded(written + (Decimal(halfmove) + " " + (Decimal(fullmove) + " ")), output.Length)
  {
    ghost var h := Decimal(halfmove);
    ghost var f := Decimal(fullmove);
    Append3(written, h + " ", f + " ");
    Append3(written, h, " ");
    next := WriteNumber(output, outI, halfmove, written);
    next := Emit(output, next, ' ', written + h);
    ghost var w := written + (h + " ");
    Append3(w, f, " ");
    next := WriteNumber(output, next, fullmove, w);
    next := Emit(output, next, ' ', w + f);
  }

  /** The en-passant field and the counters, each followed by a space. */
  method WriteEpOn(output: array<char>, outI: nat, ep: int, halfmove: int, fullmove: int, ghost written: seq<char>)
      returns (next: nat)
    requires 0 <= ep <= XX && 0 <= halfmove && 0 <= fullmove && outI == |written|
    requires |written| + |EpField(ep) + " " + (Decimal(halfmove) + " " + (Decimal(fullmove) + " "))| <= output.Length
    requires output[..] == Padded(written, output.Length)
    modifies output
    ensures output[..] ==
      Padded(written + (EpField(ep) + " " + (Decimal(halfmove) + " " + (Decimal(fullmove) + " "))), output.Length)
  {
    ghost var e := EpField(ep);
    ghost var rest := Decimal(halfmove) + " " + (Decimal(fullmove) + " ");
    Append3(written, e + " ", rest);
    Append3(written, e, " ");
    next := WriteEp(output, outI, ep, written);
    next := Emit(output, next, ' ', written + e);
    next := WriteCounters(output, next, halfmove, fullmove, written + (e + " "));
  }

  /** The castling field, the en-passant field and the counters, each
      followed by a space. */
  method WriteCastlingOn(output: array<char>, outI: nat, board: array<Square>, ep: int, halfmove: int, fullmove: int,
                         ghost written: seq<char>) returns (next: nat)
    requires board.Length == 64 && 0 <= ep <= XX && 0 <= halfmove && 0 <= fullmove && outI == |written|
    requires |written| + |CastleField(board[..]) + " " +
      (EpField(ep) + " " + (Decimal(halfmove) + " " + (Decimal(fullmove) + " ")))| <= output.Length
    requires output[..] == Padded(written, output.Length)
    modifies output
    ensures output[..] == Padded(written + (CastleField(board[..]) + " " +
      (EpField(ep) + " " + (Decimal(halfmove) + " " + (Decimal(fullmove) + " ")))), output.Length)
  {
    ghost var c := CastleField(board[..]);
    ghost var rest := EpField(ep) + " " + (Decimal(halfmove) + " " + (Decimal(fullmove) + " "));
    Append3(written, c + " ", rest);
    Append3(written, c, " ");
    next := WriteCastling(output, outI, board, written);
    next := Emit(output, next, ' ', written + c);
    next := WriteEpOn(output, next, ep, halfmove, fullmove, written + (c + " "));
  }

  /** ftk_game_to_fen_string: the buffer holds the FEN text of the game
      and zeros after it. */
  method GameToFenString(game: Game, output: array<char>)
    requires game.Shaped() && |FenText(game.State())| <= output.Length
    modifies output
    ensures output[..] == Padded(FenText(game.State()), output.Length)
  {
    ghost var p := game.State();
    ghost var P := PlacementFrom(p.squares, 0);
    ghost var t := TurnChar(p.turn);
    ghost var rest := CastleField(p.squares) + " " +
      (EpField(p.ep) + " " + (Decimal(p.halfmove) + " " + (Decimal(p.fullmove) + " ")));
    assert FenText(p) == P + " " + ([t] + " " + rest);
    Append3(P + " ", [t] + " ", rest);
    ZeroBuffer(output);
    var outI := WritePlacement(output, game.square);
    outI := Emit(output, outI, ' ', P);
    outI := WriteTurn(output, outI, game.turn, P + " ");
    outI := Emit(output, outI, ' ', P + " " + [t]);
    Append3(P + " ", [t], " ");
    outI := WriteCastlingOn(output, outI, game.square, game.ep, game.halfmove, game.fullmove, P + " " + ([t] + " "));
  }

  // ----------------------------------------------------------------------
  // The reader

  /** The effect ftk_clear_board is taken to have: every square empty. */
  method ClearBoard(board: array<Square>)
    requires board.Length == 64
    modifies board
    ensures board[..] == Blank().squares
  {
    for x := 0 to 64
      invariant forall y :: 0 <= y < x ==> board[y] == Clear
    {
      board[x] := Clear;
    }
    assert board[..] == Blank().squares;
  }

  /** What the reader keeps of ftk_begin_standard_game: the en-passant
      square, side to move and counters of the standard start. */
  method BeginFields(game: Game)
    requires game.square.Length == 64 && game.moveMask.Length == 64
    modifies game, game.square, game.moveMask
    ensures game.Shaped() && game.ep == XX && game.turn == White && game.halfmove == 0 && game.fullmove == 1
  {
    game.BeginStandardGame();
  }

  /** ftk_begin_standard_game then ftk_clear_board: the position the
      reader starts from. */
  method StartBlank(game: Game)
    requires game.square.Length == 64 && game.moveMask.Length == 64
    modifies game, game.square, game.moveMask
    ensures game.Shaped() && game.State() == Blank()
  {
    BeginFields(game);
    ClearBoard(game.square);
  }

  /** One step of the string index, as every reader loop takes it. */
  method StepIndex(fen: seq<char>, at: nat) returns (ok: bool, next: nat)
    ensures (ok, next) == Step(fen, at)
  {
    ok, next := IncrementStringIndex(fen, at, 1);
    StepIsAdvance(fen, at);
  }

  /** The inner loop of the placement reader on row `i` (0 = rank 8). */
  method ReadRowInto(board: array<Square>, fen: seq<char>, at: nat, i: int) returns (ok: bool, next: nat)
    requires board.Length == 64 && 0 <= i < 8
    modifies board
    ensures (ok, board[..], next) == ReadRow(fen, old(board[..]), at, 56 - 8 * i, i)
  {
    var squareI := 56 - 8 * i;
    next := at;
    while At(fen, next) != '/' && At(fen, next) != ' '
      invariant 0 <= squareI < 256
      invariant ReadRow(fen, board[..], next, squareI, i) == ReadRow(fen, old(board[..]), at, 56 - 8 * i, i)
      decreases |fen| - next
    {
      ok, next, squareI := RowStep(board, fen, next, squareI, i);
      if !ok {
        return;
      }
    }
    ok := true;
  }

  /** One character of a row: a digit skips squares, anything else is
      placed on the square at `squareI` when that is on the board. */
  method RowStep(board: array<Square>, fen: seq<char>, at: nat, squareI: int, i: int)
      returns (ok: bool, next: nat, squareI': int)
    requires board.Length == 64 && 0 <= i < 8 && 0 <= squareI < 256
    requires At(fen, at) != '/' && At(fen, at) != ' '
    modifies board
    ensures 0 <= squareI' < 256
    ensures ok ==> at < next <= |fen|
    ensures ReadRow(fen, old(board[..]), at, squareI, i) ==
      if ok then ReadRow(fen, board[..], next, squareI', i) else (false, board[..], next)
  {
    var c := At(fen, at);
    if '0' < c <= '8' {
      squareI' := (squareI + (c as int - '0' as int)) % 256;
    } else {
      var s := CharToSquare(c);
      if s.kind == Pawn && ((s.color == White && i == 6) || (s.color == Black && i == 1)) {
        s := s.(moved := NotMoved);
      } else {
        s := s.(moved := HasMoved);
      }
      if 0 <= squareI < 64 {
        board[squareI] := s;
      }
      squareI' := (squareI + 1) % 256;
    }
    ok, next := StepIndex(fen, at);
  }

  /** The rank loop of the placement reader: eight rows, each terminator
      stepped over. */
  method ReadBoardInto(board: array<Square>, fen: seq<char>) returns (ok: bool, next: nat)
    requires board.Length == 64
    modifies board
    ensures (ok, board[..], next) == ReadBoard(fen, old(board[..]), 0, 0)
  {
    next := 0;
    for i := 0 to 8
      invariant ReadBoard(fen, board[..], next, i) == ReadBoard(fen, old(board[..]), 0, 0)
    {
      ok, next := ReadRowInto(board, fen, next, i);
      if !ok {
        return;
      }
      ok, next := StepIndex(fen, next);
      if !ok {
        return;
      }
    }
    ok := true;
  }

  /** The castling loop: each letter up to the next space marks its king
      and rook home squares NOT_MOVED. */
  method ReadCastleInto(board: array<Square>, fen: seq<char>, at: nat) returns (ok: bool, next: nat)
    requires board.Length == 64
    modifies board
    ensures (ok, board[..], next) == ReadCastle(fen, old(board[..]), at)
  {
    next := at;
    while At(fen, next) != ' '
      invariant ReadCastle(fen, board[..], next) == ReadCastle(fen, old(board[..]), at)
      decreases |fen| - next
    {
      match At(fen, next) {
        case 'K' =>
          board[E1] := board[E1].(moved := NotMoved);
          board[H1] := board[H1].(moved := NotMoved);
        case 'Q' =>
          board[E1] := board[E1].(moved := NotMoved);
          board[A1] := board[A1].(moved := NotMoved);
        case 'k' =>
          board[E8] := board[E8].(moved := NotMoved);
          board[H8] := board[H8].(moved := NotMoved);
        case 'q' =>
          board[E8] := board[E8].(moved := NotMoved);
          board[A8] := board[A8].(moved := NotMoved);
        case _ =>
      }
      ok, next := StepIndex(fen, next);
      if !ok {
        return;
      }
    }
    ok := true;
  }

  /** A counter field: decimal digits accumulated left to right. */
  method ReadCountFrom(fen: seq<char>, at: nat) returns (ok: bool, count: nat, next: nat)
    ensures (ok, count, next) == ReadCount(fen, 0, at)
  {
    count := 0;
    next := at;
    while '0' <= At(fen, next) <= '9'
      invariant ReadCount(fen, count, next) == ReadCount(fen, 0, at)
      decreases |fen| - next
    {
      count := count * 10 + (At(fen, next) as int - '0' as int);
      ok, next := StepIndex(fen, next);
      if !ok {
        return;
      }
    }
    ok := true;
  }

  /** The side to move, then two characters on. */
  method ReadTurnInto(game: Game, fen: seq<char>, at: nat) returns (ok: bool, next: nat)
    requires game.Shaped()
    modifies game`turn
    ensures game.Shaped()
    ensures Scan(ok, game.State(), next) == ReadTurn(fen, Scan(true, old(game.State()), at))
  {
    if At(fen, at) == 'w' {
      game.turn := White;
    } else {
      game.turn := Black;
    }
    ok, next := IncrementStringIndex(fen, at, 2);
    StepIsAdvance(fen, at);
  }

  /** The castling field ('-' or letters), then one character on. */
  method ReadCastlingInto(game: Game, fen: seq<char>, at: nat) returns (ok: bool, next: nat)
    requires game.Shaped()
    modifies game.square
    ensures game.Shaped()
    ensures Scan(ok, game.State(), next) == ReadCastling(fen, Scan(true, old(game.State()), at))
  {
    if At(fen, at) == '-' {
      ok, next := StepIndex(fen, at);
    } else {
      ok, next := ReadCastleInto(game.square, fen, at);
    }
    if !ok {
      return;
    }
    ok, next := StepIndex(fen, next);
  }

  /** The en-passant field: two characters read as a square name, or '-';
      then one character on. */
  method ReadEpInto(game: Game, fen: seq<char>, at: nat) returns (ok: bool, next: nat)
    requires game.Shaped()
    modifies game`ep
    ensures game.Shaped()
    ensures Scan(ok, game.State(), next) == ReadEp(fen, Scan(true, old(game.State()), at))
  {
    if At(fen, at) != '-' {
      var pos := [At(fen, at), At(fen, at + 1), Nul];
      next := at + 2;
      game.ep := StringToPosition(pos);
    } else {
      ok, next := StepIndex(fen, at);
      if !ok {
        return;
      }
    }
    ok, next := StepIndex(fen, next);
  }

  /** The half-move counter, stored in 16 bits, then one character on. */
  method ReadHalfmoveInto(game: Game, fen: seq<char>, at: nat) returns (ok: bool, next: nat)
    requires game.Shaped()
    modifies game`halfmove
    ensures game.Shaped()
    ensures Scan(ok, game.State(), next) == ReadHalfmove(fen, Scan(true, old(game.State()), at))
  {
    var count;
    ok, count, next := ReadCountFrom(fen, at);
    if !ok {
      return;
    }
    game.halfmove := count % CounterModulus;
    ok, next := StepIndex(fen, next);
  }

  /** The full-move counter, stored in 16 bits. */
  method ReadFullmoveInto(game: Game, fen: seq<char>, at: nat) returns (ok: bool, next: nat)
    requires game.Shaped()
    modifies game`fullmove
    ensures game.Shaped()
    ensures Scan(ok, game.State(), next) == ReadFullmove(fen, Scan(true, old(game.State()), at))
  {
    var count;
    ok, count, next := ReadCountFrom(fen, at);
    if !ok {
      return;
    }
    game.fullmove := count % CounterModulus;
  }

  /** A scan that has stopped passes through the remaining phases. */
  lemma Stopped(fen: seq<char>, s: Scan)
    requires |s.p.squares| == 64 && !s.ok
    ensures ReadFullmove(fen, ReadHalfmove(fen, ReadEp(fen, ReadCastling(fen, ReadTurn(fen, s))))) == s
  {
  }

  /** The fields after the placement, from index `at`. */
  method ReadFieldsInto(game: Game, fen: seq<char>, at: nat) returns (ok: bool)
    requires game.Shaped()
    modifies game`turn, game.square, game`ep, game`halfmove, game`fullmove
    ensures game.Shaped()
    ensures ok == ReadFullmove(fen, ReadHalfmove(fen, ReadEp(fen, ReadCastling(fen, ReadTurn(fen,
      Scan(true, old(game.State()), at)))))).ok
    ensures game.State() == ReadFullmove(fen, ReadHalfmove(fen, ReadEp(fen, ReadCastling(fen, ReadTurn(fen,
      Scan(true, old(game.State()), at)))))).p
  {
    ghost var s := Scan(true, game.State(), at);
    var next;
    ok, next := ReadTurnInto(game, fen, at);
    s := ReadTurn(fen, s);
    if !ok {
      Stopped(fen, s);
      return;
    }
    ok, next := ReadCastlingInto(game, fen, next);
    s := ReadCastling(fen, s);
    if !ok {
      Stopped(fen, s);
      return;
    }
    ok, next := ReadEpInto(game, fen, next);
    s := ReadEp(fen, s);
    if !ok {
      Stopped(fen, s);
      return;
    }
    ok, next := ReadHalfmoveInto(game, fen, next);
    s := ReadHalfmove(fen, s);
    if !ok {
      Stopped(fen, s);
      return;
    }
    ok, next := ReadFullmoveInto(game, fen, next);
  }

  /** ftk_create_game_from_fen_string: the game is rebuilt from the text,
      the result is Success exactly when the scan reaches the end of the
      full-move counter without meeting the NUL early, and only then are the
      masks refreshed. On Failure the game holds what was read so far. */
  method CreateGameFromFen(game: Game, fen: seq<char>) returns (result: Result)
    requires game.square.Length == 64 && game.moveMask.Length == 64
    modifies game, game.square, game.moveMask
    ensures result == Success <==> ReadFen(fen).ok
    ensures game.State() == ReadFen(fen).p
    ensures result == Success ==> game.Current()
  {
    StartBlank(game);
    ghost var s := Scan(true, game.State(), 0);
    var ok, at := ReadBoardInto(game.square, fen);
    s := ReadPlacement(fen, s);
    assert s == Scan(ok, game.State(), at);
    if !ok {
      Stopped(fen, s);
      return Failure;
    }
    ok := ReadFieldsInto(game, fen, at);
    if !ok {
      return Failure;
    }
    game.UpdateBoardMasks();
    return Success;
  }
}
