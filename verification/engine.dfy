/** The game object (ftk_game_s with the board it holds) and the operations
    that update it in place: the squares and the move masks are 64-element
    arrays, the cached masks, en-passant square, side to move and counters
    are fields. Each method is proved against the value-level definitions
    of the Masks, Legality and Moves modules. */
module Engine {
  import opened Types
  import opened Masks
  import opened Legality
  import opened Moves

  /** The castling conditions of one wing with only the masks of squares
      below `n` searched for attacks; at n == 64 this is CastleAllowed. */
  predicate WingClearUpTo(squares: seq<Square>, c: CachedMasks, turn: Color, masks: seq<Mask>, kingSide: bool, n: int)
    requires |squares| == 64 && |masks| == 64 && 0 <= n <= 64
  {
    var w := WingOf(turn, kingSide);
    SquareIs(squares[w.king], King, Castler(turn), NotMoved) &&
    SquareIs(squares[w.rook], Rook, Castler(turn), NotMoved) &&
    w.between * (c.white + c.black) == {} &&
    forall i :: 0 <= i < n && squares[i].color == Enemy(turn) ==> masks[i] * w.guarded == {}
  }

  lemma WingClearStep(squares: seq<Square>, c: CachedMasks, turn: Color, masks: seq<Mask>, kingSide: bool, i: int)
    requires |squares| == 64 && |masks| == 64 && 0 <= i < 64
    ensures WingClearUpTo(squares, c, turn, masks, kingSide, i + 1) <==>
      WingClearUpTo(squares, c, turn, masks, kingSide, i) &&
      (squares[i].color == Enemy(turn) ==> masks[i] * WingOf(turn, kingSide).guarded == {})
  {
  }

  /** A mask misses three squares exactly when it misses the first and the
      other two. */
  lemma MissesThree(m: Mask, a: int, b: int, c: int)
    ensures m * {a, b, c} == {} <==> a !in m && m * {b, c} == {}
  {
    if a !in m && m * {b, c} == {} {
      assert forall x :: x in m * {a, b, c} ==> x in m * {b, c};
    }
    if m * {a, b, c} == {} {
      assert forall x :: x in m * {b, c} ==> x in m * {a, b, c};
      assert a !in m * {a, b, c};
    }
  }

  class Game {
    const square: array<Square>
    const moveMask: array<Mask>
    var masks: CachedMasks
    var ep: int
    var turn: Color
    var halfmove: int
    var fullmove: int

    /** Board-sized arrays, an en-passant square on the board or XX, and
        16-bit counters: what the refresh of the masks needs. */
    predicate Shaped()
      reads this`ep, this`halfmove, this`fullmove
    {
      square.Length == 64 && moveMask.Length == 64 &&
      0 <= ep <= XX && Counter(halfmove) && Counter(fullmove)
    }

    /** The game as a value. */
    function State(): Position
      reads this`ep, this`turn, this`halfmove, this`fullmove, square
    {
      Position(square[..], ep, turn, halfmove, fullmove)
    }

    /** The cached masks and the move masks are those ftk_update_board_masks
        computes for the current position. */
    predicate Current()
      reads this, square, moveMask
    {
      Shaped() && masks == BuildAll(square[..]) && moveMask[..] == MovesOf(State())
    }

    /** An empty board, White to move, no en-passant square. */
    constructor ()
      ensures Shaped() && fresh(square) && fresh(moveMask)
      ensures State() == Position(seq(64, _ => Clear), XX, White, 0, 1)
      ensures masks == NoMasks && moveMask[..] == seq(64, _ => {})
    {
      square := new Square[64](_ => Clear);
      moveMask := new Mask[64](_ => {});
      masks := NoMasks;
      ep := XX;
      turn := White;
      halfmove := 0;
      fullmove := 1;
    }

    /** ftk_build_all_masks: one pass over the squares setting each
        occupied square's bit in the board, colour and type masks. */
    method BuildAllMasks()
      requires Shaped()
      modifies this`masks
      ensures masks == BuildAll(square[..])
    {
      masks := NoMasks;
      for i := 0 to 64
        invariant masks == BuildAllUpTo(square[..], i)
      {
        if square[i].kind != Empty {
          masks := masks.(board := masks.board + {i});
          if square[i].color == White {
            masks := masks.(white := masks.white + {i});
          } else {
            masks := masks.(black := masks.black + {i});
          }
          match square[i].kind
          case Pawn => masks := masks.(pawn := masks.pawn + {i});
          case Knight => masks := masks.(knight := masks.knight + {i});
          case Bishop => masks := masks.(bishop := masks.bishop + {i});
          case Rook => masks := masks.(rook := masks.rook + {i});
          case Queen => masks := masks.(queen := masks.queen + {i});
          case King => masks := masks.(king := masks.king + {i});
          case _ =>
        }
      }
    }

    /** The loop of ftk_update_board_masks that fills every square's
        pseudo-legal move mask. */
    method BuildMoveMasks()
      requires Shaped()
      modifies moveMask
      ensures moveMask[..] == PseudoMasks(square[..], masks, ep)
    {
      for i := 0 to 64
        invariant forall j :: 0 <= j < i ==> moveMask[j] == MoveMask(square[..], masks, j, ep)
      {
        moveMask[i] := MoveMask(square[..], masks, i, ep);
      }
    }

    /** The inner loop of ftk_strip_check that cuts every defender's mask
        down to the squares that answer a check. */
    method ConfineDefenders(allowed: Mask)
      requires Shaped()
      modifies moveMask
      ensures moveMask[..] == Confine(square[..], turn, old(moveMask[..]), allowed)
    {
      ghost var m := moveMask[..];
      for j := 0 to 64
        invariant forall q :: 0 <= q < j ==>
          moveMask[q] == if Defender(square[..], turn, q) then m[q] * allowed else m[q]
        invariant forall q :: j <= q < 64 ==> moveMask[q] == m[q]
      {
        if square[j].kind != Empty && square[j].kind != King && square[j].color == turn {
          moveMask[j] := moveMask[j] * allowed;
        }
      }
    }

    /** The scan of ftk_strip_check for the one piece of the side to move
        standing in an attacker's path; a second one ends the scan with XX. */
    method FindBlocker(cross: Mask) returns (protecting: int)
      requires Shaped()
      ensures protecting == SoleBlocker(square[..], cross)
      ensures protecting != XX ==>
        IsBlocker(square[..], cross, protecting) && forall q :: IsBlocker(square[..], cross, q) ==> q == protecting
    {
      ghost var sq := square[..];
      protecting := XX;
      var j := 0;
      while j < 64
        invariant 0 <= j <= 64
        invariant protecting == XX || (0 <= protecting < j && IsBlocker(sq, cross, protecting))
        invariant protecting != XX ==> forall q :: 0 <= q < j && IsBlocker(sq, cross, q) ==> q == protecting
        invariant protecting == XX ==> forall q :: 0 <= q < j ==> !IsBlocker(sq, cross, q)
        invariant ScanBlocker(sq, cross, j, protecting) == SoleBlocker(sq, cross)
      {
        if j in cross && square[j].kind != King {
          if protecting != XX {
            protecting := XX;
            break;
          }
          assert forall q :: 0 <= q < j + 1 && IsBlocker(sq, cross, q) ==> q == j;
          protecting := j;
        } else {
          assert !IsBlocker(sq, cross, j);
        }
        j := j + 1;
      }
    }

    /** One pass of the loop of ftk_strip_check, for square `i`, with the
        king of the side to move on `k` and the check status so far. */
    method ResolveAttacker(i: int, k: int, check0: CheckState) returns (check: CheckState)
      requires Shaped() && 0 <= i < 64 && k == KingSquare(masks, turn)
      modifies moveMask
      ensures StripState(moveMask[..], check) ==
        StripStep(square[..], masks, turn, StripState(old(moveMask[..]), check0), i)
    {
      check := check0;
      if square[i].kind != Empty && square[i].color != turn {
        check := CheckBy(i, k, check0);
        PinBy(i, k);
      }
    }

    /** The check half of one pass: the attacks of the piece on `i` leave
        the king's mask, and a check confines every defender. */
    method CheckBy(i: int, k: int, check0: CheckState) returns (check: CheckState)
      requires Shaped() && 0 <= i < 64 && 0 <= k < 64
      modifies moveMask
      ensures StripState(moveMask[..], check) ==
        CheckStep(square[..], turn, k, StripState(old(moveMask[..]), check0), i)
    {
      check := check0;
      ghost var m := moveMask[..];
      var attack := AttackOf(i);
      moveMask[k] := moveMask[k] - attack;
      assert moveMask[..] == m[k := m[k] - AttackMask(square[i], m[i], i)];
      if k in moveMask[i] {
        check := InCheck;
        var path := PathMask(square[i], k, i, moveMask[i]);
        ConfineDefenders(path + {i});
      }
    }

    /** The squares the piece on `i` attacks: its moves, less a pawn's
        pushes. */
    method AttackOf(i: int) returns (attack: Mask)
      requires square.Length == 64 && moveMask.Length == 64 && 0 <= i < 64
      ensures attack == AttackMask(square[i], moveMask[i], i)
    {
      attack := moveMask[i];
      if square[i].kind == Pawn {
        if square[i].color == White {
          if i + 8 < 64 {
            attack := attack - {i + 8};
          }
          if i + 16 < 64 {
            attack := attack - {i + 16};
          }
        } else {
          if i >= 8 {
            attack := attack - {i - 8};
          }
          if i >= 16 {
            attack := attack - {i - 16};
          }
        }
      }
    }

    /** The pin half of one pass: the piece the attacker on `i` pins to
        the king on `k`, if any, is confined to the pin line. */
    method PinBy(i: int, k: int)
      requires Shaped() && 0 <= i < 64 && 0 <= k < 64
      modifies moveMask
      ensures moveMask[..] == PinStep(square[..], masks, turn, StripState(old(moveMask[..]), NoCheck), k, i).masks
    {
      ghost var m := moveMask[..];
      var noOpponent := RawMoves(square[i], OpponentMask(masks, turn), TurnMask(masks, turn), i, XX);
      var path := PathMask(square[i], k, i, noOpponent);
      assert path == ProbePath(square[..], masks, turn, k, i);
      if path != {} {
        var protecting := FindBlocker(path * TurnMask(masks, turn));
        assert protecting == Pinned(square[..], masks, turn, k, i);
        if protecting != XX {
          moveMask[protecting] := moveMask[protecting] * (path + {i});
          assert moveMask[..] == m[protecting := m[protecting] * (path + {i})];
        }
      }
    }

    /** ftk_strip_check: resolve every opposing piece in turn. */
    method StripCheck() returns (check: CheckState)
      requires Shaped() && OnBoard(masks.king)
      modifies moveMask
      ensures var r := Strip(square[..], masks, turn, old(moveMask[..]));
        moveMask[..] == r.masks && check == r.check
    {
      var k := MaskToPosition(masks.king * TurnMask(masks, turn));
      ghost var m0 := moveMask[..];
      check := NoCheck;
      for i := 0 to 64
        invariant StripState(moveMask[..], check) == StripUpTo(square[..], masks, turn, m0, i)
      {
        check := ResolveAttacker(i, k, check);
      }
    }

    /** The castle bits ftk_add_castle computes: set for a wing of the side
        to move when its king and rook are unmoved at home, the squares
        between are empty, and no opposite-coloured square's mask reaches
        the king's square or the squares it crosses. */
    method CastleRights() returns (castle: bv8)
      requires Shaped()
      ensures castle & CastleKingSideWhite != 0 <==> turn == White && CastleAllowed(square[..], masks, turn, moveMask[..], true)
      ensures castle & CastleQueenSideWhite != 0 <==> turn == White && CastleAllowed(square[..], masks, turn, moveMask[..], false)
      ensures castle & CastleKingSideBlack != 0 <==> turn != White && CastleAllowed(square[..], masks, turn, moveMask[..], true)
      ensures castle & CastleQueenSideBlack != 0 <==> turn != White && CastleAllowed(square[..], masks, turn, moveMask[..], false)
    {
      if turn == White {
        castle := WhiteCastleRights();
      } else {
        castle := BlackCastleRights();
      }
    }

    /** One pass of the scan in ftk_add_castle for White: a Black piece
        whose mask reaches the king's square withdraws both rights, and one
        whose mask reaches the squares the king crosses withdraws that
        wing's right. */
    method WhiteScan(i: int, castle0: bv8) returns (castle: bv8)
      requires Shaped() && 0 <= i < 64 && castle0 & (CastleKingSideBlack | CastleQueenSideBlack) == 0
      ensures castle & (CastleKingSideBlack | CastleQueenSideBlack) == 0
      ensures castle & CastleKingSideWhite != 0 <==>
        castle0 & CastleKingSideWhite != 0 && (square[i].color == Black ==> E1 !in moveMask[i] && moveMask[i] * {F1, G1} == {})
      ensures castle & CastleQueenSideWhite != 0 <==>
        castle0 & CastleQueenSideWhite != 0 && (square[i].color == Black ==> E1 !in moveMask[i] && moveMask[i] * {C1, D1} == {})
    {
      castle := castle0;
      if square[i].color == Black {
        if E1 in moveMask[i] {
          castle := castle & !CastleKingSideWhite;
          castle := castle & !CastleQueenSideWhite;
        }
        if moveMask[i] * {C1, D1} != {} {
          castle := castle & !CastleQueenSideWhite;
        }
        if moveMask[i] * {F1, G1} != {} {
          castle := castle & !CastleKingSideWhite;
        }
      }
    }

    /** The White branch of ftk_add_castle's castle bits. */
    method WhiteCastleRights() returns (castle: bv8)
      requires Shaped() && turn == White
      ensures castle & (CastleKingSideBlack | CastleQueenSideBlack) == 0
      ensures castle & CastleKingSideWhite != 0 <==> CastleAllowed(square[..], masks, turn, moveMask[..], true)
      ensures castle & CastleQueenSideWhite != 0 <==> CastleAllowed(square[..], masks, turn, moveMask[..], false)
    {
      ghost var m := moveMask[..];
      castle := CastleNone;
      if SquareIs(square[E1], King, White, NotMoved) {
        castle := CastleKingSideWhite | CastleQueenSideWhite;
      }
      var qs: Mask := {C1, D1};
      var ks: Mask := {F1, G1};
      if ({B1} + qs) * (masks.white + masks.black) != {} || !SquareIs(square[A1], Rook, White, NotMoved) {
        castle := castle & !CastleQueenSideWhite;
      }
      if ks * (masks.white + masks.black) != {} || !SquareIs(square[H1], Rook, White, NotMoved) {
        castle := castle & !CastleKingSideWhite;
      }
      var i := 0;
      while i < 64 && castle != 0
        invariant 0 <= i <= 64
        invariant castle & (CastleKingSideBlack | CastleQueenSideBlack) == 0
        invariant castle & CastleKingSideWhite != 0 <==> WingClearUpTo(square[..], masks, turn, m, true, i)
        invariant castle & CastleQueenSideWhite != 0 <==> WingClearUpTo(square[..], masks, turn, m, false, i)
      {
        castle := WhiteScan(i, castle);
        WingClearStep(square[..], masks, turn, m, true, i);
        WingClearStep(square[..], masks, turn, m, false, i);
        MissesThree(m[i], E1, F1, G1);
        MissesThree(m[i], E1, C1, D1);
        i := i + 1;
      }
      assert WingClearUpTo(square[..], masks, turn, m, true, 64) ==> WingClearUpTo(square[..], masks, turn, m, true, i);
      assert WingClearUpTo(square[..], masks, turn, m, false, 64) ==> WingClearUpTo(square[..], masks, turn, m, false, i);
      assert castle & CastleKingSideWhite != 0 <==> CastleAllowed(square[..], masks, turn, m, true);
      assert castle & CastleQueenSideWhite != 0 <==> CastleAllowed(square[..], masks, turn, m, false);
    }

    /** One pass of the scan in ftk_add_castle for Black: a White piece
        whose mask reaches the king's square withdraws both rights, and one
        whose mask reaches the squares the king crosses withdraws that
        wing's right. */
    method BlackScan(i: int, castle0: bv8) returns (castle: bv8)
      requires Shaped() && 0 <= i < 64 && castle0 & (CastleKingSideWhite | CastleQueenSideWhite) == 0
      ensures castle & (CastleKingSideWhite | CastleQueenSideWhite) == 0
      ensures castle & CastleKingSideBlack != 0 <==>
        castle0 & CastleKingSideBlack != 0 && (square[i].color == White ==> E8 !in moveMask[i] && moveMask[i] * {F8, G8} == {})
      ensures castle & CastleQueenSideBlack != 0 <==>
        castle0 & CastleQueenSideBlack != 0 && (square[i].color == White ==> E8 !in moveMask[i] && moveMask[i] * {C8, D8} == {})
    {
      castle := castle0;
      if square[i].color == White {
        if E8 in moveMask[i] {
          castle := castle & !CastleKingSideBlack;
          castle := castle & !CastleQueenSideBlack;
        }
        if moveMask[i] * {C8, D8} != {} {
          castle := castle & !CastleQueenSideBlack;
        }
        if moveMask[i] * {F8, G8} != {} {
          castle := castle & !CastleKingSideBlack;
        }
      }
    }

    /** The other branch of ftk_add_castle's castle bits: any side to move
        other than White castles as Black. */
    method BlackCastleRights() returns (castle: bv8)
      requires Shaped() && turn != White
      ensures castle & (CastleKingSideWhite | CastleQueenSideWhite) == 0
      ensures castle & CastleKingSideBlack != 0 <==> CastleAllowed(square[..], masks, turn, moveMask[..], true)
      ensures castle & CastleQueenSideBlack != 0 <==> CastleAllowed(square[..], masks, turn, moveMask[..], false)
    {
      ghost var m := moveMask[..];
      castle := CastleNone;
      assert WingOf(turn, true) == Wing(E8, H8, {F8, G8}, {E8, F8, G8}, G8);
      assert WingOf(turn, false) == Wing(E8, A8, {B8, C8, D8}, {E8, C8, D8}, C8);
      assert Castler(turn) == Black && Enemy(turn) == White;
      if SquareIs(square[E8], King, Black, NotMoved) {
        castle := CastleKingSideBlack | CastleQueenSideBlack;
      }
      var qs: Mask := {C8, D8};
      var ks: Mask := {F8, G8};
      if ({B8} + qs) * (masks.white + masks.black) != {} || !SquareIs(square[A8], Rook, Black, NotMoved) {
        castle := castle & !CastleQueenSideBlack;
      }
      if ks * (masks.white + masks.black) != {} || !SquareIs(square[H8], Rook, Black, NotMoved) {
        castle := castle & !CastleKingSideBlack;
      }
      var i := 0;
      while i < 64 && castle != 0
        invariant 0 <= i <= 64
        invariant castle & (CastleKingSideWhite | CastleQueenSideWhite) == 0
        invariant castle & CastleKingSideBlack != 0 <==> WingClearUpTo(square[..], masks, turn, m, true, i)
        invariant castle & CastleQueenSideBlack != 0 <==> WingClearUpTo(square[..], masks, turn, m, false, i)
      {
        castle := BlackScan(i, castle);
        WingClearStep(square[..], masks, turn, m, true, i);
        WingClearStep(square[..], masks, turn, m, false, i);
        MissesThree(m[i], E8, F8, G8);
        MissesThree(m[i], E8, C8, D8);
        i := i + 1;
      }
      assert WingClearUpTo(square[..], masks, turn, m, true, 64) ==> WingClearUpTo(square[..], masks, turn, m, true, i);
      assert WingClearUpTo(square[..], masks, turn, m, false, 64) ==> WingClearUpTo(square[..], masks, turn, m, false, i);
      assert castle & CastleKingSideBlack != 0 <==> CastleAllowed(square[..], masks, turn, m, true);
      assert castle & CastleQueenSideBlack != 0 <==> CastleAllowed(square[..], masks, turn, m, false);
    }

    /** ftk_add_castle: the castling destinations the castle bits allow
        are added to the king's mask. */
    method AddCastle()
      requires Shaped()
      modifies moveMask
      ensures moveMask[..] == Legality.AddCastle(square[..], masks, turn, old(moveMask[..]))
      ensures square[..] == old(square[..])
    {
      ghost var m := moveMask[..];
      var castle := CastleRights();
      ghost var added :=
        (if CastleAllowed(square[..], masks, turn, m, true) then {WingOf(turn, true).target} else {}) +
        (if CastleAllowed(square[..], masks, turn, m, false) then {WingOf(turn, false).target} else {});
      ghost var k := WingOf(turn, true).king;
      if castle & CastleKingSideWhite != 0 {
        moveMask[E1] := moveMask[E1] + {G1};
      }
      if castle & CastleQueenSideWhite != 0 {
        moveMask[E1] := moveMask[E1] + {C1};
      }
      if castle & CastleKingSideBlack != 0 {
        moveMask[E8] := moveMask[E8] + {G8};
      }
      if castle & CastleQueenSideBlack != 0 {
        moveMask[E8] := moveMask[E8] + {C8};
      }
      assert moveMask[k] == m[k] + added;
      assert forall x :: 0 <= x < 64 && x != k ==> moveMask[x] == m[x];
      assert moveMask[..] == m[k := m[k] + added];
    }

    /** ftk_update_board_masks: rebuild the cached masks, the pseudo-legal
        move masks, resolve checks and pins, add castling. */
    method UpdateBoardMasks()
      requires Shaped()
      modifies this`masks, moveMask
      ensures Current() && State() == old(State())
    {
      Resolve();
      AddCastle();
    }

    /** The first three steps of ftk_update_board_masks: the cached masks,
        the pseudo-legal move masks, checks and pins resolved. */
    method Resolve()
      requires Shaped()
      modifies this`masks, moveMask
      ensures masks == BuildAll(square[..])
      ensures moveMask[..] == Strip(square[..], masks, turn, PseudoMasks(square[..], masks, ep)).masks
      ensures square[..] == old(square[..])
    {
      BuildAllMasks();
      BuildAllMembers(square[..]);
      BuildMoveMasks();
      var check := StripCheck();
    }

    /** ftk_begin_standard_game: the standard initial position, White to
        move, no en-passant square, counters 0 and 1, masks refreshed. */
    method BeginStandardGame()
      requires square.Length == 64 && moveMask.Length == 64
      modifies this, square, moveMask
      ensures State() == StandardStart
      ensures Current()
    {
      forall i | 0 <= i < 64 {
        square[i] := StandardSquares()[i];
      }
      ep := XX;
      halfmove := 0;
      fullmove := 1;
      turn := White;
      assert square[..] == StandardSquares();
      assert State() == StandardStart;
      UpdateBoardMasks();
    }

    /** ftk_move_piece: a move whose target is in the source's move mask,
        by a piece of the side to move, is carried out in place and recorded;
        anything else leaves the game as it was and returns the refused
        record. */
    method MovePiece(target: int, source: int, promotion: PieceType) returns (move: Move)
      requires Current() && 0 <= source < 64 && 0 <= target < 64
      requires Accepts(State(), target, source) ==> VictimOnBoard(State(), target, source)
      modifies this, square, moveMask
      ensures Current()
      ensures var r := Play(old(State()), target, source, promotion);
        State() == r.position && move == r.record
    {
      ghost var p := State();
      if target in moveMask[source] && square[source].color == turn {
        assert Accepts(p, target, source);
        move := PlayAccepted(target, source, promotion);
      } else {
        assert moveMask[source] == MovesOf(p)[source];
        assert !Accepts(p, target, source);
        move := Move(XX, XX, Clear, Clear, XX, TypeDontCare, NoColor, 0, 0);
        assert Play(p, target, source, promotion) == Played(p, move);
      }
    }

    /** The accepted branch of ftk_move_piece: carry the move out, then
        refresh the masks. */
    method PlayAccepted(target: int, source: int, promotion: PieceType) returns (move: Move)
      requires Shaped() && 0 <= source < 64 && 0 <= target < 64
      requires Accepts(State(), target, source) && VictimOnBoard(State(), target, source)
      modifies this, square, moveMask
      ensures Current()
      ensures var r := Play(old(State()), target, source, promotion);
        State() == r.position && move == r.record
    {
      ghost var p := State();
      AcceptedIsApplicable(p, target, source);
      ghost var r := Play(p, target, source, promotion);
      assert r == Apply(p, target, source, promotion) by {
        PlayIsApply(p, target, source, promotion);
      }
      move := CarryOut(target, source, promotion);
      assert State() == r.position && move == r.record;
      UpdateBoardMasks();
      assert State() == r.position;
    }

    /** The body of ftk_move_piece for an accepted move, up to the refresh
        of the masks: counters, the pawn's effects, the castling rook, the
        mover, the side to move. */
    method CarryOut(target: int, source: int, promotion: PieceType) returns (move: Move)
      requires Shaped() && Applicable(State(), target, source)
      modifies this`ep, this`turn, this`halfmove, this`fullmove, square
      ensures Shaped()
      ensures var r := Apply(old(State()), target, source, promotion);
        State() == r.position && move == r.record
    {
      move := Prepare(target, source, promotion);
      move := Land(target, source, move);
    }

    /** The first part of ftk_move_piece: the record of the move, the
        counters, and the pawn's effects. */
    method Prepare(target: int, source: int, promotion: PieceType) returns (move: Move)
      requires Shaped() && Applicable(State(), target, source)
      modifies this`ep, this`halfmove, this`fullmove, square
      ensures Shaped()
      ensures var p := old(State());
        var r := Apply(p, target, source, promotion);
        square[..] == PawnStage(p, target, source, promotion) &&
        ep == r.position.ep && halfmove == r.position.halfmove && fullmove == r.position.fullmove &&
        move == r.record.(capture := if p.squares[source].kind == Pawn && target == p.ep
                                     then p.squares[Victim(p.ep, p.turn)] else p.squares[target])
    {
      move := Move(target, source, square[source], square[target], ep, TypeDontCare, turn, halfmove, fullmove);
      Count(target, source);
      if square[source].kind == Pawn {
        move := PawnEffects(target, source, promotion, move);
      } else {
        ep := XX;
      }
    }

    /** The second part of ftk_move_piece: a castling king brings its rook,
        the mover lands on the target, and the turn passes. */
    method Land(target: int, source: int, move0: Move) returns (move: Move)
      requires square.Length == 64 && 0 <= source < 64 && 0 <= target < 64
      requires square[source].kind == King && target - source == 2 ==> source + 3 < 64
      requires square[source].kind == King && target - source == -2 ==> source - 4 >= 0
      modifies this`turn, square
      ensures square[..] == Landing(old(square[..]), target, source)
      ensures turn == if old(turn) == White then Black else White
      ensures var sq := old(square[..]);
        move == move0.(capture :=
          if sq[source].kind == King && target - source == 2 then sq[source + 3]
          else if sq[source].kind == King && target - source == -2 then sq[source - 4]
          else move0.capture)
    {
      move := move0;
      if square[source].kind == King {
        move := CastleRook(target, source, move);
      }
      Place(target, source);
      turn := if turn == White then Black else White;
    }

    /** The counters of ftk_move_piece: the full-move number grows after
        Black's move, the half-move clock grows and restarts on a capture or
        a pawn move, both as 16-bit values. */
    method Count(target: int, source: int)
      requires square.Length == 64 && Counter(halfmove) && Counter(fullmove) && 0 <= source < 64 && 0 <= target < 64
      modifies this`halfmove, this`fullmove
      ensures Counter(halfmove) && Counter(fullmove)
      ensures fullmove == if turn == Black then Increment16(old(fullmove)) else old(fullmove)
      ensures halfmove == if square[target].kind != Empty || square[source].kind == Pawn then 0 else Increment16(old(halfmove))
    {
      if turn == Black {
        fullmove := Increment16(fullmove);
      }
      halfmove := Increment16(halfmove);
      if square[target].kind != Empty || square[source].kind == Pawn {
        halfmove := 0;
      }
    }

    /** The last step of ftk_move_piece: the mover lands on the target,
        marked as moved, and leaves its source empty. */
    method Place(target: int, source: int)
      requires square.Length == 64 && 0 <= source < 64 && 0 <= target < 64
      modifies square
      ensures var sq := old(square[..]);
        square[..] == sq[target := sq[source].(moved := HasMoved)][source := Clear]
    {
      square[target] := square[source].(moved := HasMoved);
      square[source] := Clear;
    }

    /** The pawn branch of ftk_move_piece: an en-passant capture clears and
        records the passed pawn, a double step sets the en-passant square
        and any other pawn move clears it, and a pawn reaching the first or
        last rank becomes the requested piece (a queen for any other
        request), which the record notes. */
    method PawnEffects(target: int, source: int, promotion: PieceType, move0: Move) returns (move: Move)
      requires square.Length == 64 && 0 <= ep <= XX && 0 <= source < 64 && 0 <= target < 64
      requires target == ep ==> 0 <= Victim(ep, turn) < 64
      modifies this`ep, square
      ensures 0 <= ep <= XX
      ensures var sq, e := old(square[..]), old(ep);
        var sq1 := if target == e then sq[Victim(e, turn) := Clear] else sq;
        var promotes := target / 8 == 0 || target / 8 == 7;
        square[..] == (if promotes then sq1[source := sq1[source].(kind := PromotionKind(promotion))] else sq1) &&
        move == move0.(capture := if target == e then sq[Victim(e, turn)] else move0.capture,
                       promotion := if promotes then PromotionKind(promotion) else move0.promotion) &&
        ep == (if CDiv(target - source, 8) == 2 then source + 8
               else if CDiv(target - source, 8) == -2 then source - 8 else XX)
    {
      move := move0;
      if target == ep {
        if turn == White {
          move := move.(capture := square[ep - 8]);
          square[ep - 8] := Clear;
        } else {
          move := move.(capture := square[ep + 8]);
          square[ep + 8] := Clear;
        }
      }
      TruncatedEighths(target - source);
      if CDiv(target - source, 8) == 2 {
        ep := source + 8;
      } else if CDiv(target - source, 8) == -2 {
        ep := source - 8;
      } else {
        ep := XX;
      }
      if target / 8 == 0 || target / 8 == 7 {
        if promotion == Knight || promotion == Bishop || promotion == Rook || promotion == Queen {
          square[source] := square[source].(kind := promotion);
        } else {
          square[source] := square[source].(kind := Queen);
        }
        move := move.(promotion := square[source].kind);
      }
    }

    /** The king branch of ftk_move_piece: a king moving two files brings
        the rook from the corner to the square it crosses, marked as moved,
        and the record keeps the rook in its capture field. */
    method CastleRook(target: int, source: int, move0: Move) returns (move: Move)
      requires square.Length == 64 && 0 <= source < 64 && 0 <= target < 64
      requires target - source == 2 ==> source + 3 < 64
      requires target - source == -2 ==> source - 4 >= 0
      modifies square
      ensures var sq := old(square[..]);
        if target - source == 2 then
          square[..] == sq[target - 1 := sq[source + 3].(moved := HasMoved)][source + 3 := Clear] &&
          move == move0.(capture := sq[source + 3])
        else if target - source == -2 then
          square[..] == sq[target + 1 := sq[source - 4].(moved := HasMoved)][source - 4 := Clear] &&
          move == move0.(capture := sq[source - 4])
        else square[..] == sq && move == move0
    {
      move := move0;
      if target - source == 2 {
        move := move.(capture := square[source + 3]);
        square[target - 1] := square[source + 3].(moved := HasMoved);
        square[source + 3] := Clear;
      }
      if target - source == -2 {
        move := move.(capture := square[source - 4]);
        square[target + 1] := square[source - 4].(moved := HasMoved);
        square[source - 4] := Clear;
      }
    }

    /** ftk_move_forward: replay a recorded move; a record naming no square
        fails at once, otherwise the move is played and the result says
        whether it was accepted. */
    method MoveForward(move: Move) returns (result: Result)
      requires Current()
      requires move.target == XX || move.source == XX || (0 <= move.source < 64 && 0 <= move.target < 64)
      requires move.target != XX && move.source != XX && Accepts(State(), move.target, move.source) ==>
        VictimOnBoard(State(), move.target, move.source)
      modifies this, square, moveMask
      ensures Current()
      ensures move.target == XX || move.source == XX ==> result == Failure && State() == old(State())
      ensures move.target != XX && move.source != XX ==>
        var r := Play(old(State()), move.target, move.source, move.promotion);
        State() == r.position && (result == Success <==> Accepts(old(State()), move.target, move.source))
    {
      if move.target == XX || move.source == XX {
        return Failure;
      }
      var played := MovePiece(move.target, move.source, move.promotion);
      if played.target == XX || played.source == XX {
        return Failure;
      }
      return Success;
    }

    /** ftk_move_backward: the refused record fails; any other record is
        taken back, restoring the squares it changed, its en-passant square,
        side to move and counters, and the masks are refreshed. */
    method MoveBackward(move: Move) returns (result: Result)
      requires Shaped()
      requires (move.target == XX && move.source == XX) || Restorable(move)
      modifies this, square, moveMask
      ensures move.target == XX && move.source == XX ==>
        result == Failure && State() == old(State()) && moveMask[..] == old(moveMask[..]) && masks == old(masks)
      ensures !(move.target == XX && move.source == XX) ==>
        result == Success && State() == Undo(old(State()), move) && Current()
    {
      if move.target == XX && move.source == XX {
        return Failure;
      }
      TakeBack(move);
      UpdateBoardMasks();
      return Success;
    }

    /** The body of ftk_move_backward for a record it accepts, up to the
        refresh of the masks. */
    method TakeBack(move: Move)
      requires Shaped() && Restorable(move)
      modifies this`ep, this`turn, this`halfmove, this`fullmove, square
      ensures Shaped() && State() == Undo(old(State()), move)
    {
      ghost var u := Undo(State(), move);
      square[move.source] := move.moved;
      ep := move.ep;
      turn := move.turn;
      halfmove := move.halfmove;
      fullmove := move.fullmove;
      if move.target == move.ep && move.moved.kind == Pawn {
        if move.turn == White {
          square[move.ep - 8] := move.capture;
        } else {
          square[move.ep + 8] := move.capture;
        }
        square[move.ep] := Clear;
      } else if move.moved.kind == King && move.target - move.source == 2 {
        square[move.target] := Clear;
        square[move.target - 1] := Clear;
        square[move.source + 3] := move.capture;
      } else if move.moved.kind == King && move.target - move.source == -2 {
        square[move.target] := Clear;
        square[move.target + 1] := Clear;
        square[move.source - 4] := move.capture;
      } else {
        square[move.target] := move.capture;
      }
      assert square[..] == u.squares;

    }

    /** ftk_check_for_check: whether any move mask reaches the side-to-move's
        king. */
    method CheckForCheck() returns (status: CheckState)
      requires Shaped()
      ensures status == if KingAttacked(masks, moveMask[..], turn) then InCheck else NoCheck
    {
      status := NoCheck;
      var playerKing := masks.king * TurnMask(masks, turn);
      var i := 0;
      while i < 64
        invariant 0 <= i <= 64
        invariant forall j :: 0 <= j < i ==> moveMask[j] * playerKing == {}
      {
        if moveMask[i] * playerKing != {} {
          status := InCheck;
          break;
        }
        i := i + 1;
      }
    }

    /** ftk_check_legal_moves: whether some square of the side to move has a
        non-empty move mask. */
    method CheckLegalMoves() returns (canMove: bool)
      requires Shaped()
      ensures canMove == CanMove(square[..], moveMask[..], turn)
    {
      canMove := false;
      var i := 0;
      while i < 64
        invariant 0 <= i <= 64
        invariant forall j :: 0 <= j < i ==> !(square[j].color == turn && moveMask[j] != {})
      {
        if square[i].color == turn && moveMask[i] != {} {
          canMove := true;
          break;
        }
        i := i + 1;
      }
    }

    /** ftk_check_for_game_end: checkmate or stalemate when the side to move
        has no move, a fifty-move draw past 100 half-moves, otherwise not
        over. */
    method CheckForGameEnd() returns (gameEnd: GameEnd)
      requires Shaped()
      ensures gameEnd == Outcome(KingAttacked(masks, moveMask[..], turn), CanMove(square[..], moveMask[..], turn), halfmove)
    {
      gameEnd := NotOver;
      var canMove := CheckLegalMoves();
      if !canMove {
        var check := CheckForCheck();
        gameEnd := if check == InCheck then Checkmate else DrawStalemate;
      } else if halfmove > DrawHalfMoves {
        gameEnd := DrawFiftyMoveRule;
      }
    }
  }
}
