/** Making and taking back a move, as functions of the position the engine
    keeps: the squares, the en-passant square, the side to move and the two
    counters. The engine's in-place procedures are proved to compute these. */
module Moves {
  import opened Types
  import opened Masks
  import opened Legality

  /** Everything ftk_update_board_masks reads, plus the counters. */
  datatype Position = Position(squares: seq<Square>, ep: int, turn: Color, halfmove: int, fullmove: int)

  /** A 16-bit unsigned counter value. */
  predicate Counter(x: int)
  {
    0 <= x < CounterModulus
  }

  /** The square of the pawn an en-passant capture removes: behind the
      en-passant square as seen by the side to move. */
  function Victim(ep: int, turn: Color): int
  {
    if turn == White then ep - 8 else ep + 8
  }

  /** The en-passant square is absent, or an empty square on the board
      whose victim square does not hold a piece of the side to move. */
  predicate EpSound(p: Position)
    requires |p.squares| == 64
  {
    p.ep == XX ||
    (8 <= p.ep < 56 && p.squares[p.ep] == Clear && p.squares[Victim(p.ep, p.turn)].color != p.turn)
  }

  /** What the engine keeps true between calls. */
  predicate Sound(p: Position)
  {
    TidyBoard(p.squares) && (p.turn == White || p.turn == Black) &&
    Counter(p.halfmove) && Counter(p.fullmove) && EpSound(p)
  }

  /** The move masks of a position. */
  function MovesOf(p: Position): (m: seq<Mask>)
    requires |p.squares| == 64
    ensures |m| == 64
  {
    Refresh(p.squares, p.ep, p.turn)
  }

  /** ftk_move_piece's acceptance test. */
  predicate Accepts(p: Position, t: int, s: int)
    requires |p.squares| == 64 && 0 <= s < 64
  {
    t in MovesOf(p)[s] && p.squares[s].color == p.turn
  }

  /** A pawn landing on the en-passant square has the pawn it captures
      on the board: the one square ftk_move_piece reads off the en-passant
      square. */
  predicate VictimOnBoard(p: Position, t: int, s: int)
    requires |p.squares| == 64 && 0 <= s < 64
  {
    p.squares[s].kind == Pawn && t == p.ep ==> 0 <= Victim(p.ep, p.turn) < 64
  }

  /** What ftk_move_piece needs of its inputs to stay within the board:
      both squares on the board, an accepted move, an en-passant square on
      the board or XX whose victim is on the board when a pawn lands on it,
      and 16-bit counters. */
  predicate Playable(p: Position, t: int, s: int)
  {
    |p.squares| == 64 && 0 <= s < 64 && 0 <= t < 64 && Accepts(p, t, s) && VictimOnBoard(p, t, s) &&
    0 <= p.ep <= XX && Counter(p.halfmove) && Counter(p.fullmove)
  }

  /** The type a promoting pawn becomes: the requested knight, bishop,
      rook or queen, and a queen for any other request. */
  function PromotionKind(promo: PieceType): (k: PieceType)
    ensures k == Knight || k == Bishop || k == Rook || k == Queen
    ensures (promo == Knight || promo == Bishop || promo == Rook || promo == Queen) <==> k == promo
  {
    if promo == Knight || promo == Bishop || promo == Rook || promo == Queen then promo else Queen
  }

  /** The record returned for a refused move. Its promotion field is
      not set by the engine; the model fills in TypeDontCare. */
  const Refused := Move(XX, XX, Clear, Clear, XX, TypeDontCare, NoColor, 0, 0)

  datatype Played = Played(position: Position, record: Move)

  /** A refreshed mask never holds its own square. */
  lemma RefreshedMoveLeaves(squares: seq<Square>, ep: int, turn: Color, s: int, t: int)
    requires |squares| == 64 && 0 <= s < 64 && t in Refresh(squares, ep, turn)[s]
    ensures 0 <= t < 64 && t != s
  {
    RefreshedMoveIsPseudo(squares, ep, turn, s, t);
  }

  /** What the body of ftk_move_piece needs to stay within the board: both
      squares on it, an en-passant victim on it, a king two files away
      with its rook square on it, and 16-bit counters. */
  predicate Applicable(p: Position, t: int, s: int)
  {
    |p.squares| == 64 && 0 <= s < 64 && 0 <= t < 64 && VictimOnBoard(p, t, s) &&
    0 <= p.ep <= XX && Counter(p.halfmove) && Counter(p.fullmove) &&
    (p.squares[s].kind == King && t - s == 2 ==> s + 3 < 64) &&
    (p.squares[s].kind == King && t - s == -2 ==> s - 4 >= 0)
  }

  /** An accepted move is one the body can carry out. */
  lemma AcceptedIsApplicable(p: Position, t: int, s: int)
    requires Playable(p, t, s)
    ensures Applicable(p, t, s)
  {
    if p.squares[s].kind == King && (t - s == 2 || t - s == -2) {
      KingLeapIsCastle(p.squares, p.ep, p.turn, s, t);
    }
  }

  /** The squares after the pawn's effects in ftk_move_piece: an
      en-passant capture empties the passed pawn's square, and a pawn
      reaching the first or last rank takes the promotion type. */
  function PawnStage(p: Position, t: int, s: int, promo: PieceType): (sq: seq<Square>)
    requires Applicable(p, t, s)
    ensures |sq| == 64 && (sq[s].kind == King <==> p.squares[s].kind == King)
  {
    var pawn := p.squares[s].kind == Pawn;
    var sq1 := if pawn && t == p.ep then p.squares[Victim(p.ep, p.turn) := Clear] else p.squares;
    if pawn && (t / 8 == 0 || t / 8 == 7) then sq1[s := sq1[s].(kind := PromotionKind(promo))] else sq1
  }

  /** The squares after the king's effects and the landing: a king moving
      two files brings the rook from the corner to the square it crosses,
      marked as moved; then the mover lands on the target, marked as moved,
      and its source is emptied. */
  function Landing(sq: seq<Square>, t: int, s: int): (r: seq<Square>)
    requires |sq| == 64 && 0 <= s < 64 && 0 <= t < 64
    requires sq[s].kind == King && t - s == 2 ==> s + 3 < 64
    requires sq[s].kind == King && t - s == -2 ==> s - 4 >= 0
    ensures |r| == 64
  {
    var sq3 :=
      if sq[s].kind == King && t - s == 2 then sq[t - 1 := sq[s + 3].(moved := HasMoved)][s + 3 := Clear]
      else if sq[s].kind == King && t - s == -2 then sq[t + 1 := sq[s - 4].(moved := HasMoved)][s - 4 := Clear]
      else sq;
    sq3[t := sq3[s].(moved := HasMoved)][s := Clear]
  }

  /** The body of ftk_move_piece: the new position and the undo record. */
  function Apply(p: Position, t: int, s: int, promo: PieceType): (r: Played)
    requires Applicable(p, t, s)
    ensures |r.position.squares| == 64
  {
    var sq := p.squares;
    var fullmove := if p.turn == Black then Increment16(p.fullmove) else p.fullmove;
    var halfmove := if sq[t].kind != Empty || sq[s].kind == Pawn then 0 else Increment16(p.halfmove);
    var pawn := sq[s].kind == Pawn;
    var capture1 := if pawn && t == p.ep then sq[Victim(p.ep, p.turn)] else sq[t];
    var ep := if !pawn then XX else if CDiv(t - s, 8) == 2 then s + 8 else if CDiv(t - s, 8) == -2 then s - 8 else XX;
    var promotion := if pawn && (t / 8 == 0 || t / 8 == 7) then PromotionKind(promo) else TypeDontCare;
    var sq2 := PawnStage(p, t, s, promo);
    var capture :=
      if sq2[s].kind == King && t - s == 2 then sq2[s + 3]
      else if sq2[s].kind == King && t - s == -2 then sq2[s - 4]
      else capture1;
    var turn := if p.turn == White then Black else White;
    Played(Position(Landing(sq2, t, s), ep, turn, halfmove, fullmove),
           Move(t, s, sq[s], capture, p.ep, promotion, p.turn, p.halfmove, p.fullmove))
  }

  /** ftk_move_piece: an accepted move is applied, anything else is
      refused with the position unchanged. */
  function Play(p: Position, t: int, s: int, promo: PieceType): (r: Played)
    requires |p.squares| == 64 && 0 <= s < 64 && 0 <= t < 64
    requires 0 <= p.ep <= XX && Counter(p.halfmove) && Counter(p.fullmove)
    requires Accepts(p, t, s) ==> VictimOnBoard(p, t, s)
    ensures |r.position.squares| == 64
    ensures !Accepts(p, t, s) ==> r == Played(p, Refused)
    ensures Accepts(p, t, s) ==> r.record.source == s && r.record.target == t && r.record.moved == p.squares[s]
  {
    if Accepts(p, t, s) then
      AcceptedIsApplicable(p, t, s);
      Apply(p, t, s, promo)
    else Played(p, Refused)
  }

  /** What ftk_move_backward needs of a record to stay within the board
      (besides the refused record, which it turns away), with an
      en-passant square on the board or XX and 16-bit counters, as every
      record the engine makes has. */
  predicate Restorable(m: Move)
  {
    0 <= m.source < 64 && 0 <= m.target < 64 &&
    (m.target == m.ep && m.moved.kind == Pawn ==> 0 <= Victim(m.ep, m.turn) < 64) &&
    (m.moved.kind == King && m.target - m.source == 2 ==> m.source + 3 < 64) &&
    (m.moved.kind == King && m.target - m.source == -2 ==> m.source - 4 >= 0) &&
    0 <= m.ep <= XX && Counter(m.halfmove) && Counter(m.fullmove)
  }

  /** ftk_move_backward on a record it accepts. */
  function Undo(p: Position, m: Move): (r: Position)
    requires |p.squares| == 64 && Restorable(m)
    ensures |r.squares| == 64
  {
    var sq := p.squares[m.source := m.moved];
    var sq2 :=
      if m.target == m.ep && m.moved.kind == Pawn then sq[Victim(m.ep, m.turn) := m.capture][m.ep := Clear]
      else if m.moved.kind == King && m.target - m.source == 2 then
        sq[m.target := Clear][m.target - 1 := Clear][m.source + 3 := m.capture]
      else if m.moved.kind == King && m.target - m.source == -2 then
        sq[m.target := Clear][m.target + 1 := Clear][m.source - 4 := m.capture]
      else sq[m.target := m.capture];
    Position(sq2, m.ep, m.turn, m.halfmove, m.fullmove)
  }

  // ----------------------------------------------------------------------
  // Facts about an accepted move in a sound position

  /** The shape of an accepted move in a sound position: the mover is a
      real piece of the side to move; an en-passant capture lands on the
      empty en-passant square and takes a piece other than the mover; a
      castling king crosses empty squares to an unmoved rook. */
  predicate MoveShape(p: Position, t: int, s: int)
    requires |p.squares| == 64 && 0 <= s < 64 && 0 <= t < 64
  {
    var sq := p.squares;
    s != t && IsPieceType(sq[s].kind) && sq[s].color == p.turn &&
    (sq[s].kind == Pawn && t == p.ep ==>
      sq[t] == Clear && Victim(p.ep, p.turn) != s && 0 <= Victim(p.ep, p.turn) < 64) &&
    (sq[s].kind == King && t - s == 2 ==>
      s + 3 < 64 && sq[s + 1] == Clear && sq[s + 2] == Clear && sq[s + 3] == Square(Rook, p.turn, NotMoved)) &&
    (sq[s].kind == King && t - s == -2 ==>
      s - 4 >= 0 && sq[s - 1] == Clear && sq[s - 2] == Clear && sq[s - 3] == Clear &&
      sq[s - 4] == Square(Rook, p.turn, NotMoved)) &&
    (sq[s].kind == Pawn && CDiv(t - s, 8) == 2 ==> t - s == 16 && p.turn == White && sq[s + 8] == Clear) &&
    (sq[s].kind == Pawn && CDiv(t - s, 8) == -2 ==> t - s == -16 && p.turn == Black && sq[s - 8] == Clear)
  }

  lemma MoverFacts(p: Position, t: int, s: int)
    requires Sound(p) && Playable(p, t, s)
    ensures MoveShape(p, t, s)
  {
    var sq := p.squares;
    RefreshedMoveLeaves(sq, p.ep, p.turn, s, t);
    RefreshedMoveIsPseudo(sq, p.ep, p.turn, s, t);
    if sq[s].kind == King && (t - s == 2 || t - s == -2) {
      KingLeapIsCastle(sq, p.ep, p.turn, s, t);
    }
    if sq[s].kind == Pawn {
      DoubleStep(p, t, s);
    }
  }

  // ----------------------------------------------------------------------
  // Take-back and replay

  /** Taking back an accepted move with its record restores every square,
      the en-passant square, the side to move and both counters. */
  lemma UndoPlay(p: Position, t: int, s: int, promo: PieceType)
    requires Sound(p) && 0 <= s < 64 && 0 <= t < 64 && Accepts(p, t, s)
    ensures Restorable(Play(p, t, s, promo).record)
    ensures Undo(Play(p, t, s, promo).position, Play(p, t, s, promo).record) == p
  {
    MoverFacts(p, t, s);
    AcceptedIsApplicable(p, t, s);
    PlayIsApply(p, t, s, promo);
    UndoApply(p, t, s, promo);
  }

  lemma PlayIsApply(p: Position, t: int, s: int, promo: PieceType)
    requires Playable(p, t, s) && Applicable(p, t, s)
    ensures Play(p, t, s, promo) == Apply(p, t, s, promo)
  {
  }

  lemma UndoApply(p: Position, t: int, s: int, promo: PieceType)
    requires Applicable(p, t, s) && MoveShape(p, t, s)
    ensures Restorable(Apply(p, t, s, promo).record)
    ensures Undo(Apply(p, t, s, promo).position, Apply(p, t, s, promo).record) == p
  {
    if p.squares[s].kind == Pawn && t == p.ep {
      UndoEnPassant(p, t, s, promo);
    } else if p.squares[s].kind == King && (t - s == 2 || t - s == -2) {
      UndoCastle(p, t, s, promo);
    } else {
      UndoPlain(p, t, s, promo);
    }
  }

  lemma UndoEnPassant(p: Position, t: int, s: int, promo: PieceType)
    requires Applicable(p, t, s) && MoveShape(p, t, s)
    requires p.squares[s].kind == Pawn && t == p.ep
    ensures Restorable(Apply(p, t, s, promo).record)
    ensures Undo(Apply(p, t, s, promo).position, Apply(p, t, s, promo).record) == p
  {
    var r := Apply(p, t, s, promo);
    var u := Undo(r.position, r.record);
    forall x | 0 <= x < 64 ensures u.squares[x] == p.squares[x] {
    }
    assert u.squares == p.squares;
  }

  lemma UndoCastle(p: Position, t: int, s: int, promo: PieceType)
    requires Applicable(p, t, s) && MoveShape(p, t, s)
    requires p.squares[s].kind == King && (t - s == 2 || t - s == -2)
    ensures Restorable(Apply(p, t, s, promo).record)
    ensures Undo(Apply(p, t, s, promo).position, Apply(p, t, s, promo).record) == p
  {
    var r := Apply(p, t, s, promo);
    var u := Undo(r.position, r.record);
    forall x | 0 <= x < 64 ensures u.squares[x] == p.squares[x] {
    }
    assert u.squares == p.squares;
  }

  lemma UndoPlain(p: Position, t: int, s: int, promo: PieceType)
    requires Applicable(p, t, s) && MoveShape(p, t, s)
    requires !(p.squares[s].kind == Pawn && t == p.ep)
    requires !(p.squares[s].kind == King && (t - s == 2 || t - s == -2))
    ensures Restorable(Apply(p, t, s, promo).record)
    ensures Undo(Apply(p, t, s, promo).position, Apply(p, t, s, promo).record) == p
  {
    var r := Apply(p, t, s, promo);
    var u := Undo(r.position, r.record);
    forall x | 0 <= x < 64 ensures u.squares[x] == p.squares[x] {
    }
    assert u.squares == p.squares;
  }

  /** Replaying a taken-back move from its record (ftk_move_forward after
      ftk_move_backward) gives the same position and record again. */
  lemma RedoAfterUndo(p: Position, t: int, s: int, promo: PieceType)
    requires Sound(p) && 0 <= s < 64 && 0 <= t < 64 && Accepts(p, t, s)
    ensures var r := Play(p, t, s, promo);
      Restorable(r.record) &&
      var q := Undo(r.position, r.record);
      q == p && Play(q, r.record.target, r.record.source, r.record.promotion) == r
  {
    UndoPlay(p, t, s, promo);
    MoverFacts(p, t, s);
    AcceptedIsApplicable(p, t, s);
    PlayIsApply(p, t, s, promo);
    var r := Apply(p, t, s, promo);
    PlayIsApply(p, t, s, r.record.promotion);
    PromotionReplays(p, t, s, promo);
  }

  /** The recorded promotion, requested again, promotes to the same type. */
  lemma PromotionReplays(p: Position, t: int, s: int, promo: PieceType)
    requires Applicable(p, t, s)
    ensures Apply(p, t, s, Apply(p, t, s, promo).record.promotion) == Apply(p, t, s, promo)
  {
  }

  // ----------------------------------------------------------------------
  // What an accepted move does

  /** A pawn's double step is the only move that leaves an en-passant
      square: the square it passed over, which is empty. */
  lemma DoubleStep(p: Position, t: int, s: int)
    requires Sound(p) && Playable(p, t, s) && p.squares[s].kind == Pawn
    ensures CDiv(t - s, 8) == 2 <==> t - s == 16
    ensures CDiv(t - s, 8) == -2 <==> t - s == -16
    ensures t - s == 16 ==> p.turn == White && p.squares[s + 8] == Clear
    ensures t - s == -16 ==> p.turn == Black && p.squares[s - 8] == Clear
  {
    RefreshedNonKingIsPseudo(p.squares, p.ep, p.turn, s, t);
    PawnDoubleStep(p.squares, p.turn, p.ep, s, t);
  }

  /** DoubleStep for a pawn's pseudo-legal move. */
  lemma PawnDoubleStep(sq: seq<Square>, turn: Color, ep: int, s: int, t: int)
    requires TidyBoard(sq) && 0 <= s < 64 && sq[s].kind == Pawn && sq[s].color == turn
    requires t in MoveMask(sq, BuildAll(sq), s, ep)
    ensures CDiv(t - s, 8) == 2 <==> t - s == 16
    ensures CDiv(t - s, 8) == -2 <==> t - s == -16
    ensures t - s == 16 ==> turn == White && sq[s + 8] == Clear
    ensures t - s == -16 ==> turn == Black && sq[s - 8] == Clear
  {
    var c := BuildAll(sq);
    var opp := if sq[s].color == White then c.black else c.white;
    PawnMovesExact(sq[s], c.board, opp, s, ep);
    TruncatedEighths(t - s);
    assert Tidy(sq[s]);
    if t - s == 16 {
      BoardMember(sq, s + 8);
      assert Tidy(sq[s + 8]);
    } else if t - s == -16 {
      BoardMember(sq, s - 8);
      assert Tidy(sq[s - 8]);
    }
  }

  /** C's `x / 8` is 2 exactly on 16..23 and -2 exactly on -23..-16. */
  lemma TruncatedEighths(x: int)
    ensures CDiv(x, 8) == 2 <==> 16 <= x < 24
    ensures CDiv(x, 8) == -2 <==> -24 < x <= -16
  {
  }

  /** The bookkeeping of an accepted move: the side to move passes to the
      other colour, the full-move number grows after Black's move, the
      half-move clock restarts on a capture or a pawn move and grows
      otherwise, a pawn's double step leaves the square it passed over as
      the en-passant square and every other move leaves none, and the
      record keeps the values before the move. */
  lemma ApplyBookkeeping(p: Position, t: int, s: int, promo: PieceType)
    requires Sound(p) && 0 <= s < 64 && 0 <= t < 64 && Accepts(p, t, s)
    ensures var r := Play(p, t, s, promo);
      var q := r.position;
      q.turn != p.turn && (q.turn == White || q.turn == Black) &&
      (q.fullmove == if p.turn == Black then Increment16(p.fullmove) else p.fullmove) &&
      (q.halfmove == 0 <==> p.squares[t].kind != Empty || p.squares[s].kind == Pawn || p.halfmove == CounterModulus - 1) &&
      (q.halfmove != 0 ==> q.halfmove == p.halfmove + 1) &&
      (q.ep != XX <==> p.squares[s].kind == Pawn && (t - s == 16 || t - s == -16)) &&
      (q.ep != XX ==> q.ep == (s + t) / 2) &&
      r.record.ep == p.ep && r.record.turn == p.turn &&
      r.record.halfmove == p.halfmove && r.record.fullmove == p.fullmove
  {
    AcceptedIsApplicable(p, t, s);
    PlayIsApply(p, t, s, promo);
    if p.squares[s].kind == Pawn {
      DoubleStep(p, t, s);
    }
    ApplyCounts(p, t, s, promo);
  }

  /** ApplyBookkeeping for the body of ftk_move_piece, given what
      DoubleStep says of a pawn's move. */
  lemma ApplyCounts(p: Position, t: int, s: int, promo: PieceType)
    requires Applicable(p, t, s) && (p.turn == White || p.turn == Black)
    requires p.squares[s].kind == Pawn ==>
      (CDiv(t - s, 8) == 2 <==> t - s == 16) && (CDiv(t - s, 8) == -2 <==> t - s == -16)
    ensures var r := Apply(p, t, s, promo);
      var q := r.position;
      q.turn != p.turn && (q.turn == White || q.turn == Black) &&
      (q.fullmove == if p.turn == Black then Increment16(p.fullmove) else p.fullmove) &&
      (q.halfmove == 0 <==> p.squares[t].kind != Empty || p.squares[s].kind == Pawn || p.halfmove == CounterModulus - 1) &&
      (q.halfmove != 0 ==> q.halfmove == p.halfmove + 1) &&
      (q.ep != XX <==> p.squares[s].kind == Pawn && (t - s == 16 || t - s == -16)) &&
      (q.ep != XX ==> q.ep == (s + t) / 2) &&
      r.record.ep == p.ep && r.record.turn == p.turn &&
      r.record.halfmove == p.halfmove && r.record.fullmove == p.fullmove
  {
  }

  /** Whether the move is an en-passant capture, and a castle to either wing. */
  predicate EnPassant(p: Position, t: int, s: int)
    requires |p.squares| == 64 && 0 <= s < 64
  {
    p.squares[s].kind == Pawn && t == p.ep
  }

  predicate Castles(p: Position, t: int, s: int, d: int)
    requires |p.squares| == 64 && 0 <= s < 64
  {
    p.squares[s].kind == King && t - s == d
  }

  /** The squares an accepted move writes. */
  function Touched(p: Position, t: int, s: int): set<int>
    requires |p.squares| == 64 && 0 <= s < 64
  {
    {s, t} +
    (if EnPassant(p, t, s) then {Victim(p.ep, p.turn)} else {}) +
    (if Castles(p, t, s, 2) then {s + 1, s + 3} else {}) +
    (if Castles(p, t, s, -2) then {s - 1, s - 4} else {})
  }

  /** The piece that arrives: a pawn reaching the first or last rank
      becomes the promotion type, anything else keeps its type. */
  function Arriving(p: Position, t: int, s: int, promo: PieceType): Square
    requires |p.squares| == 64 && 0 <= s < 64
  {
    var m := p.squares[s];
    var kind := if m.kind == Pawn && (t / 8 == 0 || t / 8 == 7) then PromotionKind(promo) else m.kind;
    Square(kind, m.color, HasMoved)
  }

  /** An accepted move puts the arriving piece, marked as moved, on the
      target, empties the source, and changes no square it does not touch;
      the record names the promotion type only when a pawn promotes. */
  lemma ApplyMovesPiece(p: Position, t: int, s: int, promo: PieceType)
    requires Sound(p) && 0 <= s < 64 && 0 <= t < 64 && Accepts(p, t, s)
    ensures var r := Play(p, t, s, promo);
      var q := r.position.squares;
      q[t] == Arriving(p, t, s, promo) && q[s] == Clear &&
      (forall x :: 0 <= x < 64 && x !in Touched(p, t, s) ==> q[x] == p.squares[x]) &&
      (r.record.promotion == if p.squares[s].kind == Pawn && (t / 8 == 0 || t / 8 == 7)
         then Arriving(p, t, s, promo).kind else TypeDontCare)
  {
    MoverFacts(p, t, s);
    AcceptedIsApplicable(p, t, s);
    PlayIsApply(p, t, s, promo);
    ApplyMovesPieceShape(p, t, s, promo);
  }

  lemma ApplyMovesPieceShape(p: Position, t: int, s: int, promo: PieceType)
    requires Applicable(p, t, s) && MoveShape(p, t, s)
    ensures var r := Apply(p, t, s, promo);
      var q := r.position.squares;
      q[t] == Arriving(p, t, s, promo) && q[s] == Clear &&
      (forall x :: 0 <= x < 64 && x !in Touched(p, t, s) ==> q[x] == p.squares[x]) &&
      (r.record.promotion == if p.squares[s].kind == Pawn && (t / 8 == 0 || t / 8 == 7)
         then Arriving(p, t, s, promo).kind else TypeDontCare)
  {
    var q := Apply(p, t, s, promo).position.squares;
    forall x | 0 <= x < 64 && x !in Touched(p, t, s) ensures q[x] == p.squares[x] {
    }
  }

  /** An en-passant capture removes and records the pawn behind the
      en-passant square; castling moves the rook beside the king, marked as
      moved, and records it; any other move records the target's piece. */
  lemma ApplyCaptures(p: Position, t: int, s: int, promo: PieceType)
    requires Sound(p) && 0 <= s < 64 && 0 <= t < 64 && Accepts(p, t, s)
    ensures var r := Play(p, t, s, promo);
      var q := r.position.squares;
      (EnPassant(p, t, s) ==>
        0 <= Victim(p.ep, p.turn) < 64 && q[Victim(p.ep, p.turn)] == Clear &&
        r.record.capture == p.squares[Victim(p.ep, p.turn)]) &&
      (Castles(p, t, s, 2) ==>
        s + 3 < 64 && q[s + 1] == Square(Rook, p.turn, HasMoved) && q[s + 3] == Clear &&
        r.record.capture == p.squares[s + 3]) &&
      (Castles(p, t, s, -2) ==>
        s - 4 >= 0 && q[s - 1] == Square(Rook, p.turn, HasMoved) && q[s - 4] == Clear &&
        r.record.capture == p.squares[s - 4]) &&
      (!EnPassant(p, t, s) && !Castles(p, t, s, 2) && !Castles(p, t, s, -2) ==> r.record.capture == p.squares[t])
  {
    MoverFacts(p, t, s);
    AcceptedIsApplicable(p, t, s);
    PlayIsApply(p, t, s, promo);
    ApplyCapturesShape(p, t, s, promo);
  }

  lemma ApplyCapturesShape(p: Position, t: int, s: int, promo: PieceType)
    requires Applicable(p, t, s) && MoveShape(p, t, s)
    ensures var r := Apply(p, t, s, promo);
      var q := r.position.squares;
      (EnPassant(p, t, s) ==>
        0 <= Victim(p.ep, p.turn) < 64 && q[Victim(p.ep, p.turn)] == Clear &&
        r.record.capture == p.squares[Victim(p.ep, p.turn)]) &&
      (Castles(p, t, s, 2) ==>
        s + 3 < 64 && q[s + 1] == Square(Rook, p.turn, HasMoved) && q[s + 3] == Clear &&
        r.record.capture == p.squares[s + 3]) &&
      (Castles(p, t, s, -2) ==>
        s - 4 >= 0 && q[s - 1] == Square(Rook, p.turn, HasMoved) && q[s - 4] == Clear &&
        r.record.capture == p.squares[s - 4]) &&
      (!EnPassant(p, t, s) && !Castles(p, t, s, 2) && !Castles(p, t, s, -2) ==> r.record.capture == p.squares[t])
  {
  }

  /** An accepted move keeps the position sound. */
  lemma ApplyKeepsSound(p: Position, t: int, s: int, promo: PieceType)
    requires Sound(p) && 0 <= s < 64 && 0 <= t < 64 && Accepts(p, t, s)
    ensures Sound(Play(p, t, s, promo).position)
  {
    MoverFacts(p, t, s);
    AcceptedIsApplicable(p, t, s);
    PlayIsApply(p, t, s, promo);
    ApplyKeepsSoundShape(p, t, s, promo);
  }

  lemma ApplyKeepsSoundShape(p: Position, t: int, s: int, promo: PieceType)
    requires Sound(p) && Applicable(p, t, s) && MoveShape(p, t, s)
    ensures Sound(Apply(p, t, s, promo).position)
  {
    ApplyKeepsTidy(p, t, s, promo);
    ApplyKeepsEpSound(p, t, s, promo);
  }

  lemma ApplyKeepsTidy(p: Position, t: int, s: int, promo: PieceType)
    requires Sound(p) && Applicable(p, t, s) && MoveShape(p, t, s)
    ensures TidyBoard(Apply(p, t, s, promo).position.squares)
  {
    var sq2 := PawnStage(p, t, s, promo);
    PawnStageKeepsTidy(p, t, s, promo);
    LandingKeepsTidy(sq2, t, s);
  }

  /** The pawn stage of a move keeps every square tidy and leaves a piece
      on the source. */
  lemma PawnStageKeepsTidy(p: Position, t: int, s: int, promo: PieceType)
    requires Sound(p) && Applicable(p, t, s) && MoveShape(p, t, s)
    ensures var sq := PawnStage(p, t, s, promo);
      TidyBoard(sq) && IsPieceType(sq[s].kind) &&
      (p.squares[s].kind != Pawn ==> sq == p.squares)
  {
  }

  /** Landing a piece, and the rook when castling, keeps every square tidy. */
  lemma LandingKeepsTidy(sq: seq<Square>, t: int, s: int)
    requires TidyBoard(sq) && 0 <= s < 64 && 0 <= t < 64 && IsPieceType(sq[s].kind)
    requires sq[s].kind == King && t - s == 2 ==> s + 3 < 64 && sq[s + 3].kind != Empty
    requires sq[s].kind == King && t - s == -2 ==> s - 4 >= 0 && sq[s - 4].kind != Empty
    ensures TidyBoard(Landing(sq, t, s))
  {
  }

  lemma ApplyKeepsEpSound(p: Position, t: int, s: int, promo: PieceType)
    requires Sound(p) && Applicable(p, t, s) && MoveShape(p, t, s)
    ensures EpSound(Apply(p, t, s, promo).position)
  {
    ApplyMovesPieceShape(p, t, s, promo);
    ApplyCapturesShape(p, t, s, promo);
  }

  // ----------------------------------------------------------------------
  // The starting position

  /** The pieces of the first and last ranks, file by file. */
  function HomePiece(file: int): PieceType
  {
    if file == 0 || file == 7 then Rook
    else if file == 1 || file == 6 then Knight
    else if file == 2 || file == 5 then Bishop
    else if file == 3 then Queen
    else King
  }

  /** The initial position of the FIDE Laws of Chess (Article 2.3), every
      piece unmoved. */
  function StandardSquares(): (sq: seq<Square>)
    ensures |sq| == 64
  {
    seq(64, i =>
      if i < 8 then Square(HomePiece(i), White, NotMoved)
      else if i < 16 then Square(Pawn, White, NotMoved)
      else if i < 48 then Clear
      else if i < 56 then Square(Pawn, Black, NotMoved)
      else Square(HomePiece(i - 56), Black, NotMoved))
  }

  /** ftk_begin_standard_game: the initial position, White to move, no
      en-passant square, half-move clock 0, full-move number 1. */
  const StandardStart := Position(StandardSquares(), XX, White, 0, 1)

  lemma StandardStartIsSound()
    ensures Sound(StandardStart)
    ensures StandardStart.squares[E1] == Square(King, White, NotMoved) && StandardStart.squares[E8] == Square(King, Black, NotMoved)
    ensures StandardStart.squares[A1] == Square(Rook, White, NotMoved) && StandardStart.squares[H8] == Square(Rook, Black, NotMoved)
    ensures forall i :: 16 <= i < 48 ==> StandardStart.squares[i] == Clear
  {
  }

  // ----------------------------------------------------------------------
  // The read-only queries

  /** Some move mask holds a square of the side-to-move's king. */
  predicate KingAttacked(c: CachedMasks, moves: seq<Mask>, turn: Color)
  {
    exists i :: 0 <= i < |moves| && moves[i] * (c.king * TurnMask(c, turn)) != {}
  }

  /** Some square of the side to move has a non-empty move mask. */
  predicate CanMove(squares: seq<Square>, moves: seq<Mask>, turn: Color)
    requires |squares| == |moves|
  {
    exists i :: 0 <= i < |moves| && squares[i].color == turn && moves[i] != {}
  }

  /** ftk_check_for_game_end, from the answers of the two other queries. */
  function Outcome(attacked: bool, canMove: bool, halfmove: int): (e: GameEnd)
    ensures e == Checkmate <==> attacked && !canMove
    ensures e == DrawStalemate <==> !attacked && !canMove
    ensures e == DrawFiftyMoveRule <==> canMove && halfmove > DrawHalfMoves
    ensures e == NotOver <==> canMove && halfmove <= DrawHalfMoves
  {
    if !canMove then (if attacked then Checkmate else DrawStalemate)
    else if halfmove > DrawHalfMoves then DrawFiftyMoveRule
    else NotOver
  }

  /** A member of a non-empty mask. */
  lemma SomeMember(m: Mask) returns (t: int)
    requires m != {}
    ensures t in m
  {
    if forall x :: x !in m {
      assert false;
    }
    t :| t in m;
  }

  /** The side to move can move exactly when ftk_move_piece accepts some
      move: checkmate and stalemate leave every move refused. */
  lemma CanMoveIffSomeMoveAccepted(p: Position)
    requires |p.squares| == 64
    ensures CanMove(p.squares, MovesOf(p), p.turn) <==>
      exists s, t :: 0 <= s < 64 && 0 <= t < 64 && Accepts(p, t, s)
  {
    var m := MovesOf(p);
    if CanMove(p.squares, m, p.turn) {
      var s :| 0 <= s < 64 && p.squares[s].color == p.turn && m[s] != {};
      var t := SomeMember(m[s]);
      RefreshedMoveLeaves(p.squares, p.ep, p.turn, s, t);
      assert Accepts(p, t, s);
    }
    if exists s, t :: 0 <= s < 64 && 0 <= t < 64 && Accepts(p, t, s) {
      var s, t :| 0 <= s < 64 && 0 <= t < 64 && Accepts(p, t, s);
      assert t in m[s];
      assert p.squares[s].color == p.turn && m[s] != {};
    }
  }

  /** The side to move has exactly one king, on square `k`. */
  predicate SoleKingAt(p: Position, k: int)
    requires |p.squares| == 64
  {
    0 <= k < 64 && p.squares[k].kind == King && p.squares[k].color == p.turn &&
    forall x :: 0 <= x < 64 && p.squares[x].kind == King && p.squares[x].color == p.turn ==> x == k
  }

  lemma SoleKingIsKingSquare(p: Position, k: int)
    requires Sound(p) && SoleKingAt(p, k)
    ensures KingSquare(BuildAll(p.squares), p.turn) == k
    ensures forall x :: x in BuildAll(p.squares).king * TurnMask(BuildAll(p.squares), p.turn) <==> x == k
  {
    var c := BuildAll(p.squares);
    BuildAllMembers(p.squares);
    TurnMaskHoldsTurn(p.squares, c, p.turn);
    assert k in c.king * TurnMask(c, p.turn);
  }

  /** With a lone king to protect, the refresh leaves an opposing
      piece's mask as the generator produced it. */
  lemma AttackerMaskSurvivesRefresh(p: Position, k: int, i: int)
    requires Sound(p) && SoleKingAt(p, k) && 0 <= i < 64 && Attacker(p.squares, p.turn, i)
    ensures MovesOf(p)[i] == PseudoMasks(p.squares, BuildAll(p.squares), p.ep)[i]
  {
    var c := BuildAll(p.squares);
    var m0 := PseudoMasks(p.squares, c, p.ep);
    var r := Strip(p.squares, c, p.turn, m0);
    SoleKingIsKingSquare(p, k);
    assert Setting(p.squares, c, p.turn, m0);
    StripLeavesOthers(p.squares, c, p.turn, m0, i);
    AddCastleSparesOthers(p.squares, c, p.turn, r.masks, i);
    assert MovesOf(p)[i] == AddCastle(p.squares, c, p.turn, r.masks)[i];
  }

  /** No refreshed mask of an empty square or of a piece of the side to
      move reaches that side's king. */
  lemma OwnMaskMissesKing(p: Position, k: int, i: int)
    requires Sound(p) && SoleKingAt(p, k) && 0 <= i < 64 && !Attacker(p.squares, p.turn, i)
    ensures k !in MovesOf(p)[i]
  {
    if k in MovesOf(p)[i] {
      var c := BuildAll(p.squares);
      RefreshedMoveIsPseudo(p.squares, p.ep, p.turn, i, k);
      if k in MoveMask(p.squares, c, i, p.ep) {
        OwnMoveMissesKing(p.squares, p.ep, p.turn, k, i);
      }
    }
  }

  /** The pseudo-legal mask of an empty square or of a piece of the side to
      move never holds a square that side occupies. */
  lemma OwnMoveMissesKing(squares: seq<Square>, ep: int, turn: Color, k: int, i: int)
    requires TidyBoard(squares) && 0 <= i < 64 && !Attacker(squares, turn, i)
    requires 0 <= k < 64 && squares[k].kind != Empty && squares[k].color == turn && k != ep
    ensures k !in MoveMask(squares, BuildAll(squares), i, ep)
  {
    var c := BuildAll(squares);
    BuildAllMembers(squares);
    assert Tidy(squares[i]) && Tidy(squares[k]);
    if squares[i].kind != Empty {
      assert k in c.board;
      assert k !in (if squares[i].color == White then c.black else c.white);
    }
  }


  /** ftk_check_for_check agrees with the check status ftk_strip_check
      reported when the masks were refreshed, provided the side to move has
      exactly one king. */
  lemma KingAttackedIffResolverCheck(p: Position, k: int)
    requires Sound(p) && SoleKingAt(p, k)
    ensures var c := BuildAll(p.squares);
      KingAttacked(c, MovesOf(p), p.turn) <==>
        Strip(p.squares, c, p.turn, PseudoMasks(p.squares, c, p.ep)).check == InCheck
  {
    var c := BuildAll(p.squares);
    var m0 := PseudoMasks(p.squares, c, p.ep);
    StripCheckIff(p, k);
    if KingAttacked(c, MovesOf(p), p.turn) {
      AttackedByAttacker(p, k);
    }
    if exists i :: Attacker(p.squares, p.turn, i) && k in m0[i] {
      AttackerAttacks(p, k);
    }
  }

  /** The resolver reports check exactly when an attacker's pseudo-legal
      mask reaches the king. */
  lemma StripCheckIff(p: Position, k: int)
    requires Sound(p) && SoleKingAt(p, k)
    ensures var c := BuildAll(p.squares);
      var m0 := PseudoMasks(p.squares, c, p.ep);
      Strip(p.squares, c, p.turn, m0).check == InCheck <==> exists i :: Attacker(p.squares, p.turn, i) && k in m0[i]
  {
    var c := BuildAll(p.squares);
    var m0 := PseudoMasks(p.squares, c, p.ep);
    SoleKingIsKingSquare(p, k);
    assert Setting(p.squares, c, p.turn, m0);
    StripClosedForm(p.squares, c, p.turn, m0, 0, 0);
  }

  /** An attacker whose pseudo-legal mask reaches the king keeps it in its
      refreshed mask. */
  lemma AttackerAttacks(p: Position, k: int)
    requires Sound(p) && SoleKingAt(p, k)
    requires exists i :: Attacker(p.squares, p.turn, i) && k in PseudoMasks(p.squares, BuildAll(p.squares), p.ep)[i]
    ensures KingAttacked(BuildAll(p.squares), MovesOf(p), p.turn)
  {
    var c := BuildAll(p.squares);
    var i :| Attacker(p.squares, p.turn, i) && k in PseudoMasks(p.squares, c, p.ep)[i];
    SoleKingIsKingSquare(p, k);
    AttackerMaskSurvivesRefresh(p, k, i);
    assert k in MovesOf(p)[i] * (c.king * TurnMask(c, p.turn));
  }

  /** A refreshed mask that reaches the king belongs to an attacker whose
      pseudo-legal mask reaches it too. */
  lemma AttackedByAttacker(p: Position, k: int)
    requires Sound(p) && SoleKingAt(p, k)
    requires KingAttacked(BuildAll(p.squares), MovesOf(p), p.turn)
    ensures exists i :: Attacker(p.squares, p.turn, i) && k in PseudoMasks(p.squares, BuildAll(p.squares), p.ep)[i]
  {
    var c := BuildAll(p.squares);
    var m := MovesOf(p);
    SoleKingIsKingSquare(p, k);
    var i :| 0 <= i < 64 && m[i] * (c.king * TurnMask(c, p.turn)) != {};
    var x := SomeMember(m[i] * (c.king * TurnMask(c, p.turn)));
    assert x == k;
    if !Attacker(p.squares, p.turn, i) {
      OwnMaskMissesKing(p, k, i);
      assert false;
    }
    AttackerMaskSurvivesRefresh(p, k, i);
  }

  /** ftk_check_for_game_end on refreshed masks, in terms of the move
      engine: checkmate is check with every move refused, stalemate is no
      check with every move refused, and the fifty-move draw needs some
      accepted move. */
  lemma OutcomeOfPosition(p: Position, k: int)
    requires Sound(p) && SoleKingAt(p, k)
    ensures var c := BuildAll(p.squares);
      var inCheck := Strip(p.squares, c, p.turn, PseudoMasks(p.squares, c, p.ep)).check == InCheck;
      var stuck := forall s, t :: 0 <= s < 64 && 0 <= t < 64 ==> !Accepts(p, t, s);
      var e := Outcome(KingAttacked(c, MovesOf(p), p.turn), CanMove(p.squares, MovesOf(p), p.turn), p.halfmove);
      (e == Checkmate <==> inCheck && stuck) &&
      (e == DrawStalemate <==> !inCheck && stuck) &&
      (e == DrawFiftyMoveRule <==> !stuck && p.halfmove > DrawHalfMoves) &&
      (e == NotOver <==> !stuck && p.halfmove <= DrawHalfMoves)
  {
    KingAttackedIffResolverCheck(p, k);
    CanMoveIffSomeMoveAccepted(p);
  }
}
