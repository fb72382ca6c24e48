/** Occupancy masks and the pseudo-legal destination generator: the parts of
    the mask module that only compute a mask from the board and return it. */
module Masks {
  import opened Types

  // ----------------------------------------------------------------------
  // Board geometry

  function FileOf(p: int): int { p % 8 }
  function RankOf(p: int): int { p / 8 }
  function Abs(x: int): int { if x < 0 then -x else x }
  function Max(a: int, b: int): int { if a >= b then a else b }
  function Sign(x: int): int { if x > 0 then 1 else if x < 0 then -1 else 0 }

  /** Number of king steps from `p` to `q`. */
  function Dist(p: int, q: int): int
  {
    Max(Abs(FileOf(q) - FileOf(p)), Abs(RankOf(q) - RankOf(p)))
  }

  /** `n` units in the direction of the unit `c` (-1, 0 or 1). */
  function Offset(c: int, n: int): int
  {
    if c > 0 then n else if c < 0 then -n else 0
  }

  lemma Coordinates(x: int, file: int, rank: int)
    requires 0 <= file < 8 && x == 8 * rank + file
    ensures FileOf(x) == file && RankOf(x) == rank
  {
  }

  // ----------------------------------------------------------------------
  // Single-purpose mask builders

  /** ftk_build_type_mask: the squares holding pieces of type `kind`. */
  method BuildTypeMask(squares: seq<Square>, kind: PieceType) returns (mask: Mask)
    requires |squares| == 64
    ensures forall x :: x in mask <==> 0 <= x < 64 && squares[x].kind == kind
  {
    mask := {};
    var i := 0;
    while i < 64
      invariant 0 <= i <= 64
      invariant forall x :: x in mask <==> 0 <= x < i && squares[x].kind == kind
    {
      if squares[i].kind == kind {
        mask := mask + {i};
      }
      i := i + 1;
    }
  }

  /** ftk_build_color_mask: the squares whose colour field is `color`. */
  method BuildColorMask(squares: seq<Square>, color: Color) returns (mask: Mask)
    requires |squares| == 64
    ensures forall x :: x in mask <==> 0 <= x < 64 && squares[x].color == color
  {
    mask := {};
    var i := 0;
    while i < 64
      invariant 0 <= i <= 64
      invariant forall x :: x in mask <==> 0 <= x < i && squares[x].color == color
    {
      if squares[i].color == color {
        mask := mask + {i};
      }
      i := i + 1;
    }
  }

  /** ftk_build_board_mask: the occupied squares. */
  method BuildBoardMask(squares: seq<Square>) returns (mask: Mask)
    requires |squares| == 64
    ensures forall x :: x in mask <==> 0 <= x < 64 && squares[x].kind != Empty
  {
    mask := {};
    var i := 0;
    while i < 64
      invariant 0 <= i <= 64
      invariant forall x :: x in mask <==> 0 <= x < i && squares[x].kind != Empty
    {
      if squares[i].kind != Empty {
        mask := mask + {i};
      }
      i := i + 1;
    }
  }

  // ----------------------------------------------------------------------
  // The nine cached masks of a board

  datatype CachedMasks = CachedMasks(
    board: Mask, white: Mask, black: Mask,
    pawn: Mask, knight: Mask, bishop: Mask, rook: Mask, queen: Mask, king: Mask)

  const NoMasks := CachedMasks({}, {}, {}, {}, {}, {}, {}, {}, {})

  /** What one pass of the loop of ftk_build_all_masks records for square `i`:
      an occupied square goes into the board mask, into the white mask when
      white and into the black mask otherwise, and into its type's mask. */
  function RecordSquare(c: CachedMasks, s: Square, i: int): (r: CachedMasks)
    ensures r.board == if s.kind == Empty then c.board else c.board + {i}
    ensures r.white == if s.kind != Empty && s.color == White then c.white + {i} else c.white
    ensures r.black == if s.kind != Empty && s.color != White then c.black + {i} else c.black
    ensures r.pawn == if s.kind == Pawn then c.pawn + {i} else c.pawn
    ensures r.knight == if s.kind == Knight then c.knight + {i} else c.knight
    ensures r.bishop == if s.kind == Bishop then c.bishop + {i} else c.bishop
    ensures r.rook == if s.kind == Rook then c.rook + {i} else c.rook
    ensures r.queen == if s.kind == Queen then c.queen + {i} else c.queen
    ensures r.king == if s.kind == King then c.king + {i} else c.king
  {
    if s.kind == Empty then c
    else
      var c1 := c.(board := c.board + {i});
      var c2 := if s.color == White then c1.(white := c1.white + {i}) else c1.(black := c1.black + {i});
      match s.kind
      case Pawn => c2.(pawn := c2.pawn + {i})
      case Knight => c2.(knight := c2.knight + {i})
      case Bishop => c2.(bishop := c2.bishop + {i})
      case Rook => c2.(rook := c2.rook + {i})
      case Queen => c2.(queen := c2.queen + {i})
      case King => c2.(king := c2.king + {i})
      case _ => c2
  }

  /** The masks after the loop has visited the first `n` squares. */
  function BuildAllUpTo(squares: seq<Square>, n: int): CachedMasks
    requires 0 <= n <= |squares|
    decreases n
  {
    if n == 0 then NoMasks else RecordSquare(BuildAllUpTo(squares, n - 1), squares[n - 1], n - 1)
  }

  /** ftk_build_all_masks, as a value. */
  function BuildAll(squares: seq<Square>): CachedMasks
    requires |squares| == 64
  {
    BuildAllUpTo(squares, 64)
  }

  /** After `n` squares, each cached mask holds exactly the squares below
      `n` that it describes. */
  lemma {:induction false} BuildAllUpToMembers(squares: seq<Square>, n: int)
    requires 0 <= n <= |squares|
    ensures forall x :: x in BuildAllUpTo(squares, n).board <==> 0 <= x < n && squares[x].kind != Empty
    ensures forall x :: x in BuildAllUpTo(squares, n).white <==> 0 <= x < n && squares[x].kind != Empty && squares[x].color == White
    ensures forall x :: x in BuildAllUpTo(squares, n).black <==> 0 <= x < n && squares[x].kind != Empty && squares[x].color != White
    ensures forall x :: x in BuildAllUpTo(squares, n).pawn <==> 0 <= x < n && squares[x].kind == Pawn
    ensures forall x :: x in BuildAllUpTo(squares, n).knight <==> 0 <= x < n && squares[x].kind == Knight
    ensures forall x :: x in BuildAllUpTo(squares, n).bishop <==> 0 <= x < n && squares[x].kind == Bishop
    ensures forall x :: x in BuildAllUpTo(squares, n).rook <==> 0 <= x < n && squares[x].kind == Rook
    ensures forall x :: x in BuildAllUpTo(squares, n).queen <==> 0 <= x < n && squares[x].kind == Queen
    ensures forall x :: x in BuildAllUpTo(squares, n).king <==> 0 <= x < n && squares[x].kind == King
    decreases n
  {
    if n > 0 {
      BuildAllUpToMembers(squares, n - 1);
    }
  }

  /** Each cached mask of a board holds exactly the squares it describes. */
  lemma BuildAllMembers(squares: seq<Square>)
    requires |squares| == 64
    ensures forall x :: x in BuildAll(squares).board <==> 0 <= x < 64 && squares[x].kind != Empty
    ensures forall x :: x in BuildAll(squares).white <==> 0 <= x < 64 && squares[x].kind != Empty && squares[x].color == White
    ensures forall x :: x in BuildAll(squares).black <==> 0 <= x < 64 && squares[x].kind != Empty && squares[x].color != White
    ensures forall x :: x in BuildAll(squares).pawn <==> 0 <= x < 64 && squares[x].kind == Pawn
    ensures forall x :: x in BuildAll(squares).knight <==> 0 <= x < 64 && squares[x].kind == Knight
    ensures forall x :: x in BuildAll(squares).bishop <==> 0 <= x < 64 && squares[x].kind == Bishop
    ensures forall x :: x in BuildAll(squares).rook <==> 0 <= x < 64 && squares[x].kind == Rook
    ensures forall x :: x in BuildAll(squares).queen <==> 0 <= x < 64 && squares[x].kind == Queen
    ensures forall x :: x in BuildAll(squares).king <==> 0 <= x < 64 && squares[x].kind == King
  {
    BuildAllUpToMembers(squares, 64);
  }

  /** A square is in the board mask exactly when it is occupied. */
  lemma BoardMember(squares: seq<Square>, x: int)
    requires |squares| == 64 && 0 <= x < 64
    ensures x in BuildAll(squares).board <==> squares[x].kind != Empty
  {
    BuildAllMembers(squares);
  }

  /** An occupied square is in the white or the black mask. */
  lemma OccupiedIsColored(squares: seq<Square>, x: int)
    requires |squares| == 64 && 0 <= x < 64 && squares[x].kind != Empty
    ensures x in BuildAll(squares).white + BuildAll(squares).black
  {
    BuildAllMembers(squares);
  }

  /** The cached mask of one piece type (none for EMPTY and DONT_CARE). */
  function TypeMaskOf(c: CachedMasks, kind: PieceType): Mask
  {
    match kind
    case Pawn => c.pawn
    case Knight => c.knight
    case Bishop => c.bishop
    case Rook => c.rook
    case Queen => c.queen
    case King => c.king
    case _ => {}
  }

  /** The white and black masks partition the board mask. */
  lemma ColorMasksPartition(squares: seq<Square>)
    requires |squares| == 64
    ensures var c := BuildAll(squares);
      OnBoard(c.board) && c.white + c.black == c.board && c.white * c.black == {}
  {
    BuildAllMembers(squares);
    var c := BuildAll(squares);
    assert c.white + c.black == c.board by {
      forall x ensures x in c.white + c.black <==> x in c.board {
      }
    }
    assert c.white * c.black == {} by {
      forall x | x in c.white * c.black ensures false {
      }
    }
  }

  predicate IsPieceType(kind: PieceType)
  {
    kind != Empty && kind != TypeDontCare
  }

  lemma TypeMaskMembership(squares: seq<Square>, kind: PieceType, x: int)
    requires |squares| == 64
    ensures x in TypeMaskOf(BuildAll(squares), kind) <==>
      IsPieceType(kind) && 0 <= x < 64 && squares[x].kind == kind
  {
    BuildAllMembers(squares);
    match kind
    case Pawn =>
    case Knight =>
    case Bishop =>
    case Rook =>
    case Queen =>
    case King =>
    case _ =>
  }

  /** Every occupied square of a board without DONT_CARE pieces is in one of
      the six type masks. */
  lemma TypeMasksCover(squares: seq<Square>)
    requires |squares| == 64
    requires forall i :: 0 <= i < 64 ==> squares[i].kind != TypeDontCare
    ensures var c := BuildAll(squares);
      c.pawn + c.knight + c.bishop + c.rook + c.queen + c.king == c.board
  {
    var c := BuildAll(squares);
    BuildAllMembers(squares);
    var u := c.pawn + c.knight + c.bishop + c.rook + c.queen + c.king;
    forall x | x in u ensures x in c.board {
      TypeMaskMembership(squares, Pawn, x);
      TypeMaskMembership(squares, Knight, x);
      TypeMaskMembership(squares, Bishop, x);
      TypeMaskMembership(squares, Rook, x);
      TypeMaskMembership(squares, Queen, x);
      TypeMaskMembership(squares, King, x);
    }
    forall x | x in c.board ensures x in u {
      TypeMaskMembership(squares, squares[x].kind, x);
    }
  }

  /** The type masks of two different types share no square, and each lies
      within the board mask. */
  lemma TypeMasksDisjoint(squares: seq<Square>, k1: PieceType, k2: PieceType)
    requires |squares| == 64 && k1 != k2
    ensures var c := BuildAll(squares);
      TypeMaskOf(c, k1) * TypeMaskOf(c, k2) == {} && TypeMaskOf(c, k1) <= c.board
  {
    var c := BuildAll(squares);
    BuildAllMembers(squares);
    forall x | x in TypeMaskOf(c, k1) ensures x !in TypeMaskOf(c, k2) && x in c.board {
      TypeMaskMembership(squares, k1, x);
      TypeMaskMembership(squares, k2, x);
    }
  }

  /** On a board of tidy squares, the cached masks equal what the
      single-purpose builders compute. */
  lemma BuildAllAgreesWithBuilders(squares: seq<Square>)
    requires TidyBoard(squares)
    ensures var c := BuildAll(squares);
      (forall x :: x in c.board <==> 0 <= x < 64 && squares[x].kind != Empty) &&
      (forall x :: x in c.white <==> 0 <= x < 64 && squares[x].color == White) &&
      (forall x :: x in c.black <==> 0 <= x < 64 && squares[x].color == Black)
  {
    BuildAllMembers(squares);
  }

  // ----------------------------------------------------------------------
  // Pseudo-legal destinations (ftk_build_move_mask_raw)

  /** A square a piece may land on: empty, or held by the opponent. */
  predicate Landable(board: Mask, opp: Mask, t: int)
  {
    t !in board || t in opp
  }

  /** The file test that keeps a step from wrapping around the board edge. */
  datatype FileGuard = Rightward | Leftward | AnyFile

  /** `test` is on the board and passes the file test relative to `pos`. */
  predicate Reachable(g: FileGuard, pos: int, test: int)
  {
    0 <= test < 64 &&
    match g
    case Rightward => FileOf(test) > FileOf(pos)
    case Leftward => FileOf(test) < FileOf(pos)
    case AnyFile => true
  }

  /** One of the eight ray directions, as a file and a rank increment. */
  datatype Direction = Direction(df: int, dr: int)

  predicate IsDirection(d: Direction)
  {
    -1 <= d.df <= 1 && -1 <= d.dr <= 1 && (d.df != 0 || d.dr != 0)
  }

  /** Index increment of one step in direction `d`. */
  function StepOf(d: Direction): int
  {
    8 * d.dr + d.df
  }

  /** The file test the source applies to a ray: none for a vertical one. */
  function GuardOf(d: Direction): FileGuard
  {
    if d.df > 0 then Rightward else if d.df < 0 then Leftward else AnyFile
  }

  const UpRight := Direction(1, 1)     // +9
  const DownLeft := Direction(-1, -1)  // -9
  const UpLeft := Direction(-1, 1)     // +7
  const DownRight := Direction(1, -1)  // -7
  const Right := Direction(1, 0)       // +1
  const Left := Direction(-1, 0)       // -1
  const Up := Direction(0, 1)          // +8
  const Down := Direction(0, -1)       // -8

  /** The squares a ray walk adds, starting at `test`: each reachable,
      landable square, stopping after an occupied one, and after the first
      one when `single` (a king). */
  function Ray(board: Mask, opp: Mask, pos: int, d: Direction, single: bool, test: int): (r: Mask)
    requires IsDirection(d)
    ensures forall t :: t in r ==> 0 <= t < 64 && Landable(board, opp, t)
    ensures forall t :: t in r ==> if StepOf(d) > 0 then t >= test else t <= test
    decreases if StepOf(d) > 0 then 64 - test else test
  {
    if Reachable(GuardOf(d), pos, test) && Landable(board, opp, test) then
      {test} + (if single || test in board then {} else Ray(board, opp, pos, d, single, test + StepOf(d)))
    else {}
  }

  /** A knight leap by `offset`, if it passes its file test and may land. */
  function Leap(board: Mask, opp: Mask, pos: int, offset: int, g: FileGuard): Mask
  {
    var test := pos + offset;
    if Reachable(g, pos, test) && Landable(board, opp, test) then {test} else {}
  }

  function KnightMoves(board: Mask, opp: Mask, pos: int): (r: Mask)
    ensures forall t :: t in r ==> 0 <= t < 64 && t != pos && Landable(board, opp, t)
  {
    Leap(board, opp, pos, 17, Rightward) + Leap(board, opp, pos, -17, Leftward) +
    Leap(board, opp, pos, 15, Leftward) + Leap(board, opp, pos, -15, Rightward) +
    Leap(board, opp, pos, 10, Rightward) + Leap(board, opp, pos, -10, Leftward) +
    Leap(board, opp, pos, 6, Leftward) + Leap(board, opp, pos, -6, Rightward)
  }

  /** A pawn's diagonal: on the board and onto an opponent or the ep square;
      there is no file test. */
  function PawnCapture(opp: Mask, test: int, ep: int): Mask
  {
    if 0 <= test < 64 && (test in opp || test == ep) then {test} else {}
  }

  /** White pawns move up the board (+1), all others down (-1). */
  function PawnDirection(s: Square): int
  {
    if s.color == White then 1 else -1
  }

  function PawnMoves(s: Square, board: Mask, opp: Mask, pos: int, ep: int): (r: Mask)
    ensures forall t :: t in r ==> 0 <= t < 64 && t != pos && (Landable(board, opp, t) || t == ep)
  {
    var dir := PawnDirection(s);
    var one := pos + 8 * dir;
    var two := pos + 16 * dir;
    var pushes :=
      if 0 <= one < 64 && one !in board then
        {one} + (if s.moved == NotMoved && 0 <= two < 64 && two !in board then {two} else {})
      else {};
    pushes + PawnCapture(opp, pos + 9 * dir, ep) + PawnCapture(opp, pos + 7 * dir, ep)
  }

  /** Bishops, rooks, queens and kings: the diagonal rays unless a rook,
      the straight rays unless a bishop, one step each for a king. */
  function SliderMoves(kind: PieceType, board: Mask, opp: Mask, pos: int): (r: Mask)
    ensures forall t :: t in r ==> 0 <= t < 64 && t != pos && Landable(board, opp, t)
  {
    var single := kind == King;
    var diagonal :=
      if kind != Rook then
        Ray(board, opp, pos, UpRight, single, pos + 9) + Ray(board, opp, pos, DownLeft, single, pos - 9) +
        Ray(board, opp, pos, UpLeft, single, pos + 7) + Ray(board, opp, pos, DownRight, single, pos - 7)
      else {};
    var straight :=
      if kind != Bishop then
        Ray(board, opp, pos, Right, single, pos + 1) + Ray(board, opp, pos, Left, single, pos - 1) +
        Ray(board, opp, pos, Up, single, pos + 8) + Ray(board, opp, pos, Down, single, pos - 8)
      else {};
    diagonal + straight
  }

  predicate IsSlider(kind: PieceType)
  {
    kind == Bishop || kind == Rook || kind == Queen || kind == King
  }

  /** ftk_build_move_mask_raw: the pseudo-legal destinations of `s` standing
      on `pos`, given the occupied squares and the capturable squares. */
  function RawMoves(s: Square, board: Mask, opp: Mask, pos: int, ep: int): (r: Mask)
    requires 0 <= pos < 64
    ensures OnBoard(r) && pos !in r
    ensures !IsPieceType(s.kind) ==> r == {}
    ensures forall t :: t in r ==> Landable(board, opp, t) || (s.kind == Pawn && t == ep)
  {
    if s.kind == Pawn then PawnMoves(s, board, opp, pos, ep)
    else if s.kind == Knight then KnightMoves(board, opp, pos)
    else if IsSlider(s.kind) then SliderMoves(s.kind, board, opp, pos)
    else {}
  }

  /** ftk_build_move_mask: the opponent is black for a white square and
      white for anything else. */
  function MoveMask(squares: seq<Square>, c: CachedMasks, pos: int, ep: int): Mask
    requires |squares| == 64 && 0 <= pos < 64
  {
    RawMoves(squares[pos], c.board, if squares[pos].color == White then c.black else c.white, pos, ep)
  }

  // ----------------------------------------------------------------------
  // Geometry of the generator

  predicate InBounds(file: int, rank: int)
  {
    0 <= file < 8 && 0 <= rank < 8
  }

  /** `x` lies `k` steps from `pos` in direction `d`, file and rank alike. */
  predicate StepsAway(pos: int, x: int, d: Direction, k: int)
  {
    FileOf(x) == FileOf(pos) + Offset(d.df, k) && RankOf(x) == RankOf(pos) + Offset(d.dr, k)
  }

  /** `x` is on the ray from `pos` in direction `d` (and is not `pos`). */
  predicate OnRay(pos: int, x: int, d: Direction)
  {
    Dist(pos, x) >= 1 && StepsAway(pos, x, d, Dist(pos, x))
  }

  /** No occupied square on the ray lies strictly between `k` steps and `t`. */
  predicate ClearBetween(board: Mask, pos: int, t: int, d: Direction, k: int)
  {
    forall x :: 0 <= x < 64 && OnRay(pos, x, d) && k < Dist(pos, x) < Dist(pos, t) ==> x !in board
  }

  lemma StepsAwayDist(pos: int, x: int, d: Direction, k: int)
    ensures IsDirection(d) && k >= 0 && StepsAway(pos, x, d, k) ==> Dist(pos, x) == k
  {
  }

  /** A step the file test accepts is one further along the ray, and the
      ray is then fewer than eight steps long. */
  lemma NextOnRay(pos: int, cur: int, d: Direction, k: int)
    requires 0 <= pos < 64 && 0 <= cur < 64 && IsDirection(d) && k >= 0
    requires StepsAway(pos, cur, d, k) && Reachable(GuardOf(d), pos, cur + StepOf(d))
    ensures 0 <= cur + StepOf(d) < 64 && StepsAway(pos, cur + StepOf(d), d, k + 1) && k + 1 < 8
  {
    NextStep(pos, cur, d, k);
    StepsAwayDist(pos, cur + StepOf(d), d, k + 1);
  }

  /** One more step along a ray that has stayed on the board: the file test
      of the source accepts it exactly when it stays on the board, and then
      it is the one square one step further. */
  lemma NextStep(pos: int, cur: int, d: Direction, k: int)
    requires 0 <= pos < 64 && 0 <= cur < 64 && IsDirection(d) && k >= 0
    requires StepsAway(pos, cur, d, k)
    ensures Reachable(GuardOf(d), pos, cur + StepOf(d)) <==>
      InBounds(FileOf(cur) + d.df, RankOf(cur) + d.dr)
    ensures Reachable(GuardOf(d), pos, cur + StepOf(d)) ==>
      StepsAway(pos, cur + StepOf(d), d, k + 1)
    ensures forall x, m :: 0 <= x < 64 && m == k + 1 && StepsAway(pos, x, d, m) ==> x == cur + StepOf(d)
    ensures forall x, m :: 0 <= x < 64 && m > k && StepsAway(pos, x, d, m) ==>
      InBounds(FileOf(cur) + d.df, RankOf(cur) + d.dr)
  {
    var f, r := FileOf(cur), RankOf(cur);
    var test := cur + StepOf(d);
    assert cur == 8 * r + f;
    if InBounds(f + d.df, r + d.dr) {
      Coordinates(test, f + d.df, r + d.dr);
    } else if f + d.df == 8 {
      if 0 <= test < 64 {
        Coordinates(test, 0, r + d.dr + 1);
      }
    } else if f + d.df == -1 {
      if 0 <= test < 64 {
        Coordinates(test, 7, r + d.dr - 1);
      }
    }
    forall x, m | 0 <= x < 64 && m == k + 1 && StepsAway(pos, x, d, m) ensures x == test {
      Coordinates(x, FileOf(x), RankOf(x));
    }
  }

  /** `t` is what the ray walk from `k` steps out should add: a square
      further out on the ray, landable, with nothing occupied before it, and
      for a king only the next one. */
  predicate RayTarget(board: Mask, opp: Mask, pos: int, d: Direction, single: bool, k: int, t: int)
  {
    0 <= t < 64 && OnRay(pos, t, d) && Dist(pos, t) > k && (single ==> Dist(pos, t) == k + 1) &&
    Landable(board, opp, t) && ClearBetween(board, pos, t, d, k)
  }

  /** The walk from the square `k` steps out adds exactly its ray targets. */
  lemma {:induction false} RayFrom(board: Mask, opp: Mask, pos: int, d: Direction, single: bool, cur: int, k: int, t: int)
    requires 0 <= pos < 64 && 0 <= cur < 64 && IsDirection(d) && k >= 0
    requires StepsAway(pos, cur, d, k)
    ensures t in Ray(board, opp, pos, d, single, cur + StepOf(d)) <==> RayTarget(board, opp, pos, d, single, k, t)
    decreases 8 - k
  {
    var test := cur + StepOf(d);
    if Reachable(GuardOf(d), pos, test) && Landable(board, opp, test) && !single && test !in board && t != test {
      NextOnRay(pos, cur, d, k);
      RayFrom(board, opp, pos, d, single, test, k + 1, t);
    }
    RayStep(board, opp, pos, d, single, cur, k, t);
  }

  /** One step of the walk: its targets from `k` steps out, given those from
      one step further out when the walk goes on past an empty square. */
  lemma RayStep(board: Mask, opp: Mask, pos: int, d: Direction, single: bool, cur: int, k: int, t: int)
    requires 0 <= pos < 64 && 0 <= cur < 64 && IsDirection(d) && k >= 0
    requires StepsAway(pos, cur, d, k)
    requires var test := cur + StepOf(d);
      Reachable(GuardOf(d), pos, test) && Landable(board, opp, test) && !single && test !in board && t != test ==>
        (t in Ray(board, opp, pos, d, single, test + StepOf(d)) <==> RayTarget(board, opp, pos, d, single, k + 1, t))
    ensures t in Ray(board, opp, pos, d, single, cur + StepOf(d)) <==> RayTarget(board, opp, pos, d, single, k, t)
  {
    var test := cur + StepOf(d);
    if !(Reachable(GuardOf(d), pos, test) && Landable(board, opp, test)) {
      assert Ray(board, opp, pos, d, single, test) == {};
      NoTargetPastBlock(board, opp, pos, d, single, cur, k, t);
    } else if single || test in board {
      assert Ray(board, opp, pos, d, single, test) == {test};
      FirstTarget(board, opp, pos, d, single, cur, k, t);
    } else if t == test {
      assert t in Ray(board, opp, pos, d, single, test);
      FirstIsTarget(board, opp, pos, d, single, cur, k);
    } else {
      RayPastEmpty(board, opp, pos, d, single, cur, k, t);
    }
  }

  /** Past an empty square the walk goes on, and its targets from there are
      those from one step further out. */
  lemma RayPastEmpty(board: Mask, opp: Mask, pos: int, d: Direction, single: bool, cur: int, k: int, t: int)
    requires 0 <= pos < 64 && 0 <= cur < 64 && IsDirection(d) && k >= 0
    requires StepsAway(pos, cur, d, k)
    requires Reachable(GuardOf(d), pos, cur + StepOf(d)) && Landable(board, opp, cur + StepOf(d))
    requires !single && cur + StepOf(d) !in board && t != cur + StepOf(d)
    requires t in Ray(board, opp, pos, d, single, cur + StepOf(d) + StepOf(d)) <==> RayTarget(board, opp, pos, d, single, k + 1, t)
    ensures t in Ray(board, opp, pos, d, single, cur + StepOf(d)) <==> RayTarget(board, opp, pos, d, single, k, t)
  {
    var test := cur + StepOf(d);
    FirstTarget(board, opp, pos, d, single, cur, k, t);
    RayTargetStep(board, opp, pos, d, single, k, test, t);
  }

  /** When the next square is off the board, wraps, or holds a piece of the
      mover's side, nothing further out is a target. */
  lemma NoTargetPastBlock(board: Mask, opp: Mask, pos: int, d: Direction, single: bool, cur: int, k: int, t: int)
    requires 0 <= pos < 64 && 0 <= cur < 64 && IsDirection(d) && k >= 0
    requires StepsAway(pos, cur, d, k)
    requires !(Reachable(GuardOf(d), pos, cur + StepOf(d)) && Landable(board, opp, cur + StepOf(d)))
    ensures !RayTarget(board, opp, pos, d, single, k, t)
  {
    var test := cur + StepOf(d);
    NextStep(pos, cur, d, k);
    StepsAwayDist(pos, t, d, Dist(pos, t));
    StepsAwayDist(pos, test, d, k + 1);
  }

  /** When the next square may be landed on, it is a target. */
  lemma FirstIsTarget(board: Mask, opp: Mask, pos: int, d: Direction, single: bool, cur: int, k: int)
    requires 0 <= pos < 64 && 0 <= cur < 64 && IsDirection(d) && k >= 0
    requires StepsAway(pos, cur, d, k)
    requires Reachable(GuardOf(d), pos, cur + StepOf(d)) && Landable(board, opp, cur + StepOf(d))
    ensures RayTarget(board, opp, pos, d, single, k, cur + StepOf(d))
  {
    NextStep(pos, cur, d, k);
    StepsAwayDist(pos, cur + StepOf(d), d, k + 1);
  }

  /** When the next square may be landed on, it is a target; and when the
      walk stops there (a king, or an occupied square) it is the only one. */
  lemma FirstTarget(board: Mask, opp: Mask, pos: int, d: Direction, single: bool, cur: int, k: int, t: int)
    requires 0 <= pos < 64 && 0 <= cur < 64 && IsDirection(d) && k >= 0
    requires StepsAway(pos, cur, d, k)
    requires Reachable(GuardOf(d), pos, cur + StepOf(d)) && Landable(board, opp, cur + StepOf(d))
    ensures RayTarget(board, opp, pos, d, single, k, cur + StepOf(d))
    ensures cur + StepOf(d) != t && (single || cur + StepOf(d) in board) ==> !RayTarget(board, opp, pos, d, single, k, t)
    ensures OnRay(pos, cur + StepOf(d), d) && Dist(pos, cur + StepOf(d)) == k + 1
    ensures forall x, m :: 0 <= x < 64 && m == k + 1 && StepsAway(pos, x, d, m) ==> x == cur + StepOf(d)
  {
    var test := cur + StepOf(d);
    NextStep(pos, cur, d, k);
    StepsAwayDist(pos, test, d, k + 1);
    StepsAwayDist(pos, t, d, Dist(pos, t));
  }

  /** Past an empty square one step further out, the targets from `k` and
      from `k + 1` steps out are the same. */
  lemma RayTargetStep(board: Mask, opp: Mask, pos: int, d: Direction, single: bool, k: int, test: int, t: int)
    requires IsDirection(d) && k >= 0 && !single && t != test && 0 <= test < 64 && test !in board
    requires OnRay(pos, test, d) && Dist(pos, test) == k + 1
    requires forall x, m :: 0 <= x < 64 && m == k + 1 && StepsAway(pos, x, d, m) ==> x == test
    ensures RayTarget(board, opp, pos, d, single, k, t) <==> RayTarget(board, opp, pos, d, single, k + 1, t)
  {
    if RayTarget(board, opp, pos, d, single, k, t) {
      assert Dist(pos, t) != k + 1;
    }
    if RayTarget(board, opp, pos, d, single, k + 1, t) {
      forall x | 0 <= x < 64 && OnRay(pos, x, d) && k < Dist(pos, x) < Dist(pos, t) ensures x !in board {
        if Dist(pos, x) == k + 1 {
          assert x == test;
        }
      }
    }
  }

  /** A ray walk from the piece itself adds exactly the ray targets. */
  lemma RayMoves(board: Mask, opp: Mask, pos: int, d: Direction, single: bool, t: int)
    requires 0 <= pos < 64 && IsDirection(d)
    ensures t in Ray(board, opp, pos, d, single, pos + StepOf(d)) <==> RayTarget(board, opp, pos, d, single, 0, t)
  {
    RayFrom(board, opp, pos, d, single, pos, 0, t);
  }

  /** The unit direction from `pos` toward `t`. */
  function DirectionTo(pos: int, t: int): Direction
  {
    Direction(Sign(FileOf(t) - FileOf(pos)), Sign(RankOf(t) - RankOf(pos)))
  }

  /** `t` is on a diagonal through `pos`. */
  predicate Diagonal(pos: int, t: int)
  {
    Abs(FileOf(t) - FileOf(pos)) == Abs(RankOf(t) - RankOf(pos)) >= 1
  }

  /** `t` is on the same file or the same rank as `pos`, and is not `pos`. */
  predicate Straight(pos: int, t: int)
  {
    (FileOf(t) == FileOf(pos)) != (RankOf(t) == RankOf(pos))
  }

  /** Nothing is on the squares strictly between `pos` and `t` along the line
      joining them. */
  predicate ClearPath(board: Mask, pos: int, t: int)
  {
    ClearBetween(board, pos, t, DirectionTo(pos, t), 0)
  }

  lemma OnRayDirection(pos: int, t: int, d: Direction)
    ensures IsDirection(d) ==> (OnRay(pos, t, d) <==>
      Dist(pos, t) >= 1 && d == DirectionTo(pos, t) &&
      (d.df != 0 && d.dr != 0 ==> Abs(FileOf(t) - FileOf(pos)) == Abs(RankOf(t) - RankOf(pos))))
  {
  }

  /** Membership in each of the eight ray walks of a slider. */
  lemma SliderRays(board: Mask, opp: Mask, pos: int, single: bool, t: int)
    requires 0 <= pos < 64
    ensures t in Ray(board, opp, pos, UpRight, single, pos + 9) <==> RayTarget(board, opp, pos, UpRight, single, 0, t)
    ensures t in Ray(board, opp, pos, DownLeft, single, pos - 9) <==> RayTarget(board, opp, pos, DownLeft, single, 0, t)
    ensures t in Ray(board, opp, pos, UpLeft, single, pos + 7) <==> RayTarget(board, opp, pos, UpLeft, single, 0, t)
    ensures t in Ray(board, opp, pos, DownRight, single, pos - 7) <==> RayTarget(board, opp, pos, DownRight, single, 0, t)
    ensures t in Ray(board, opp, pos, Right, single, pos + 1) <==> RayTarget(board, opp, pos, Right, single, 0, t)
    ensures t in Ray(board, opp, pos, Left, single, pos - 1) <==> RayTarget(board, opp, pos, Left, single, 0, t)
    ensures t in Ray(board, opp, pos, Up, single, pos + 8) <==> RayTarget(board, opp, pos, Up, single, 0, t)
    ensures t in Ray(board, opp, pos, Down, single, pos - 8) <==> RayTarget(board, opp, pos, Down, single, 0, t)
  {
    RayMoves(board, opp, pos, UpRight, single, t);
    OnRayDirection(pos, t, UpRight);
    RayMoves(board, opp, pos, DownLeft, single, t);
    OnRayDirection(pos, t, DownLeft);
    RayMoves(board, opp, pos, UpLeft, single, t);
    OnRayDirection(pos, t, UpLeft);
    RayMoves(board, opp, pos, DownRight, single, t);
    OnRayDirection(pos, t, DownRight);
    RayMoves(board, opp, pos, Right, single, t);
    OnRayDirection(pos, t, Right);
    RayMoves(board, opp, pos, Left, single, t);
    OnRayDirection(pos, t, Left);
    RayMoves(board, opp, pos, Up, single, t);
    OnRayDirection(pos, t, Up);
    RayMoves(board, opp, pos, Down, single, t);
    OnRayDirection(pos, t, Down);
  }

  /** A bishop reaches exactly the diagonal squares it may land on with
      nothing in between. */
  lemma BishopMoves(s: Square, board: Mask, opp: Mask, pos: int, ep: int, t: int)
    requires 0 <= pos < 64 && s.kind == Bishop
    ensures t in RawMoves(s, board, opp, pos, ep) <==>
      0 <= t < 64 && Diagonal(pos, t) && Landable(board, opp, t) && ClearPath(board, pos, t)
  {
    SliderRays(board, opp, pos, false, t);
    OnRayDirection(pos, t, DirectionTo(pos, t));
  }

  /** A rook reaches exactly the squares on its file or rank that it may
      land on with nothing in between. */
  lemma RookMoves(s: Square, board: Mask, opp: Mask, pos: int, ep: int, t: int)
    requires 0 <= pos < 64 && s.kind == Rook
    ensures t in RawMoves(s, board, opp, pos, ep) <==>
      0 <= t < 64 && Straight(pos, t) && Landable(board, opp, t) && ClearPath(board, pos, t)
  {
    SliderRays(board, opp, pos, false, t);
    OnRayDirection(pos, t, DirectionTo(pos, t));
  }

  /** A queen moves as a bishop or a rook. */
  lemma QueenMoves(s: Square, board: Mask, opp: Mask, pos: int, ep: int, t: int)
    requires 0 <= pos < 64 && s.kind == Queen
    ensures t in RawMoves(s, board, opp, pos, ep) <==>
      0 <= t < 64 && (Diagonal(pos, t) || Straight(pos, t)) && Landable(board, opp, t) && ClearPath(board, pos, t)
  {
    SliderRays(board, opp, pos, false, t);
    OnRayDirection(pos, t, DirectionTo(pos, t));
  }

  /** A king reaches exactly the neighbouring squares it may land on. */
  lemma KingMoves(s: Square, board: Mask, opp: Mask, pos: int, ep: int, t: int)
    requires 0 <= pos < 64 && s.kind == King
    ensures t in RawMoves(s, board, opp, pos, ep) <==>
      0 <= t < 64 && Dist(pos, t) == 1 && Landable(board, opp, t)
  {
    SliderRays(board, opp, pos, true, t);
    OnRayDirection(pos, t, DirectionTo(pos, t));
  }

  /** A leap of `a` files and `b` ranks passes the source's file test exactly
      when it stays on the board, and then lands `a` files and `b` ranks away. */
  lemma LeapStaysOnBoard(pos: int, a: int, b: int)
    requires 0 <= pos < 64 && 1 <= Abs(a) <= 2 && -2 <= b <= 2
    ensures Reachable(if a > 0 then Rightward else Leftward, pos, pos + 8 * b + a) <==>
      InBounds(FileOf(pos) + a, RankOf(pos) + b)
    ensures InBounds(FileOf(pos) + a, RankOf(pos) + b) ==>
      FileOf(pos + 8 * b + a) == FileOf(pos) + a && RankOf(pos + 8 * b + a) == RankOf(pos) + b
  {
    var f, r := FileOf(pos), RankOf(pos);
    var test := pos + 8 * b + a;
    if InBounds(f + a, r + b) {
      Coordinates(test, f + a, r + b);
    } else if f + a >= 8 {
      if 0 <= test < 64 {
        Coordinates(test, f + a - 8, r + b + 1);
      }
    } else if f + a < 0 {
      if 0 <= test < 64 {
        Coordinates(test, f + a + 8, r + b - 1);
      }
    }
  }

  /** A single knight leap adds exactly the landable square `a` files and
      `b` ranks away, when there is one. */
  lemma LeapExact(board: Mask, opp: Mask, pos: int, a: int, b: int, t: int)
    requires 0 <= pos < 64 && 1 <= Abs(a) <= 2 && -2 <= b <= 2
    ensures t in Leap(board, opp, pos, 8 * b + a, if a > 0 then Rightward else Leftward) <==>
      0 <= t < 64 && FileOf(t) == FileOf(pos) + a && RankOf(t) == RankOf(pos) + b && Landable(board, opp, t)
  {
    LeapStaysOnBoard(pos, a, b);
    if 0 <= t < 64 {
      Coordinates(t, FileOf(t), RankOf(t));
      Coordinates(pos, FileOf(pos), RankOf(pos));
    }
  }

  /** One file and two ranks away, or two files and one rank. */
  predicate KnightJump(pos: int, t: int)
  {
    var df, dr := Abs(FileOf(t) - FileOf(pos)), Abs(RankOf(t) - RankOf(pos));
    (df == 1 && dr == 2) || (df == 2 && dr == 1)
  }

  /** A knight reaches exactly the L-shaped squares it may land on: the file
      tests stop every leap that would wrap around an edge. */
  lemma KnightMovesExact(s: Square, board: Mask, opp: Mask, pos: int, ep: int, t: int)
    requires 0 <= pos < 64 && s.kind == Knight
    ensures t in RawMoves(s, board, opp, pos, ep) <==>
      0 <= t < 64 && KnightJump(pos, t) && Landable(board, opp, t)
  {
    LeapExact(board, opp, pos, 1, 2, t);
    LeapExact(board, opp, pos, -1, -2, t);
    LeapExact(board, opp, pos, -1, 2, t);
    LeapExact(board, opp, pos, 1, -2, t);
    LeapExact(board, opp, pos, 2, 1, t);
    LeapExact(board, opp, pos, -2, -1, t);
    LeapExact(board, opp, pos, -2, 1, t);
    LeapExact(board, opp, pos, 2, -1, t);
    assert KnightMoves(board, opp, pos) ==
      Leap(board, opp, pos, 8 * 2 + 1, Rightward) + Leap(board, opp, pos, 8 * -2 + -1, Leftward) +
      Leap(board, opp, pos, 8 * 2 + -1, Leftward) + Leap(board, opp, pos, 8 * -2 + 1, Rightward) +
      Leap(board, opp, pos, 8 * 1 + 2, Rightward) + Leap(board, opp, pos, 8 * -1 + -2, Leftward) +
      Leap(board, opp, pos, 8 * 1 + -2, Leftward) + Leap(board, opp, pos, 8 * -1 + 2, Rightward);
  }

  /** The pawn rules as the generator applies them: a push to the empty
      square ahead, a double push only from an unmoved pawn past an empty
      square onto an empty one, and the two forward diagonals onto an
      opponent or the ep square; nothing else. */
  lemma PawnMovesExact(s: Square, board: Mask, opp: Mask, pos: int, ep: int)
    requires 0 <= pos < 64 && s.kind == Pawn
    ensures var r, dir := RawMoves(s, board, opp, pos, ep), PawnDirection(s);
      forall t :: t in r ==> t == pos + 8 * dir || t == pos + 16 * dir || t == pos + 9 * dir || t == pos + 7 * dir
    ensures var r, dir := RawMoves(s, board, opp, pos, ep), PawnDirection(s);
      pos + 8 * dir in r <==> 0 <= pos + 8 * dir < 64 && pos + 8 * dir !in board
    ensures var r, dir := RawMoves(s, board, opp, pos, ep), PawnDirection(s);
      pos + 16 * dir in r <==>
        pos + 8 * dir in r && s.moved == NotMoved && 0 <= pos + 16 * dir < 64 && pos + 16 * dir !in board
    ensures var r, dir := RawMoves(s, board, opp, pos, ep), PawnDirection(s);
      (pos + 9 * dir in r <==> 0 <= pos + 9 * dir < 64 && (pos + 9 * dir in opp || pos + 9 * dir == ep)) &&
      (pos + 7 * dir in r <==> 0 <= pos + 7 * dir < 64 && (pos + 7 * dir in opp || pos + 7 * dir == ep))
  {
  }

  /** The pawn moves in files and ranks: pushes stay on the pawn's file and
      go one or two ranks forward; a diagonal goes one rank forward to an
      adjacent file, except from an edge file, where it wraps seven files
      across. */
  lemma PawnMovesGeometry(s: Square, board: Mask, opp: Mask, pos: int, ep: int, t: int)
    requires 0 <= pos < 64 && s.kind == Pawn && t in RawMoves(s, board, opp, pos, ep)
    ensures var dir := PawnDirection(s);
      (FileOf(t) == FileOf(pos) && (RankOf(t) == RankOf(pos) + dir || RankOf(t) == RankOf(pos) + 2 * dir)) ||
      (Abs(FileOf(t) - FileOf(pos)) == 1 && RankOf(t) == RankOf(pos) + dir) ||
      (Abs(FileOf(t) - FileOf(pos)) == 7 && (FileOf(pos) == 0 || FileOf(pos) == 7))
  {
    PawnMovesExact(s, board, opp, pos, ep);
    var dir, f, k := PawnDirection(s), FileOf(pos), RankOf(pos);
    Coordinates(pos, f, k);
    if t == pos + 8 * dir {
      Coordinates(t, f, k + dir);
    } else if t == pos + 16 * dir {
      Coordinates(t, f, k + 2 * dir);
    } else if t == pos + 9 * dir {
      if dir == 1 {
        if f < 7 { Coordinates(t, f + 1, k + 1); } else { Coordinates(t, 0, k + 2); }
      } else {
        if f > 0 { Coordinates(t, f - 1, k - 1); } else { Coordinates(t, 7, k - 2); }
      }
    } else {
      if dir == 1 {
        if f > 0 { Coordinates(t, f - 1, k + 1); } else { Coordinates(t, 7, k); }
      } else {
        if f < 7 { Coordinates(t, f + 1, k - 1); } else { Coordinates(t, 0, k); }
      }
    }
  }

  /** The pawn diagonals have no file test: a white pawn on h2 "captures"
      an opponent piece on a4, across the board edge. */
  lemma PawnDiagonalWraps(s: Square, board: Mask, opp: Mask)
    requires s.kind == Pawn && s.color == White && 24 in opp
    ensures 24 in RawMoves(s, board, opp, 15, XX)
    ensures FileOf(15) == 7 && FileOf(24) == 0
  {
  }

  // ----------------------------------------------------------------------
  // Path from an attacker to a target (ftk_build_path_mask)

  predicate IsPathStep(step: int)
  {
    step == 9 || step == 7 || step == 8 || step == 1
  }

  /** `x` and `y` leave the same remainder modulo `step`. */
  predicate Congruent(x: int, y: int, step: int)
    requires step > 0
  {
    x % step == y % step
  }

  lemma CongruentFacts(x: int, y: int, step: int)
    requires IsPathStep(step)
    ensures Congruent(x, y, step) <==> (x - y) % step == 0
    ensures Congruent(x, y, step) <==> Congruent(x, y - step, step)
    ensures Congruent(x, y, step) <==> Congruent(x, y + step, step)
    ensures Congruent(x, y, step) && x < y ==> x <= y - step
    ensures Congruent(x, y, step) && x > y ==> x >= y + step
  {
    if step == 9 {
      CongruentModulo9(x, y);
    } else if step == 7 {
      CongruentModulo7(x, y);
    } else if step == 8 {
      CongruentModulo8(x, y);
    }
  }

  lemma CongruentModulo9(x: int, y: int)
    ensures Congruent(x, y, 9) <==> (x - y) % 9 == 0
    ensures Congruent(x, y, 9) <==> Congruent(x, y - 9, 9)
    ensures Congruent(x, y, 9) <==> Congruent(x, y + 9, 9)
    ensures Congruent(x, y, 9) && x < y ==> x <= y - 9
    ensures Congruent(x, y, 9) && x > y ==> x >= y + 9
  {
  }

  lemma CongruentModulo7(x: int, y: int)
    ensures Congruent(x, y, 7) <==> (x - y) % 7 == 0
    ensures Congruent(x, y, 7) <==> Congruent(x, y - 7, 7)
    ensures Congruent(x, y, 7) <==> Congruent(x, y + 7, 7)
    ensures Congruent(x, y, 7) && x < y ==> x <= y - 7
    ensures Congruent(x, y, 7) && x > y ==> x >= y + 7
  {
  }

  lemma CongruentModulo8(x: int, y: int)
    ensures Congruent(x, y, 8) <==> (x - y) % 8 == 0
    ensures Congruent(x, y, 8) <==> Congruent(x, y - 8, 8)
    ensures Congruent(x, y, 8) <==> Congruent(x, y + 8, 8)
    ensures Congruent(x, y, 8) && x < y ==> x <= y - 8
    ensures Congruent(x, y, 8) && x > y ==> x >= y + 8
  {
  }

  /** Congruent squares below `i` are at least one step below it, and the
      congruence survives a step. */
  lemma CongruentGap(i: int, step: int)
    requires IsPathStep(step)
    ensures forall x :: Congruent(x, i, step) <==> Congruent(x, i - step, step)
    ensures forall x :: Congruent(x, i, step) <==> Congruent(x, i + step, step)
    ensures forall x :: Congruent(x, i, step) && x < i ==> x <= i - step
    ensures forall x :: Congruent(x, i, step) && x > i ==> x >= i + step
  {
    forall x ensures Congruent(x, i, step) <==> Congruent(x, i - step, step) {
      CongruentFacts(x, i, step);
    }
    forall x ensures Congruent(x, i, step) <==> Congruent(x, i + step, step) {
      CongruentFacts(x, i, step);
    }
    forall x | Congruent(x, i, step) && x < i ensures x <= i - step {
      CongruentFacts(x, i, step);
    }
    forall x | Congruent(x, i, step) && x > i ensures x >= i + step {
      CongruentFacts(x, i, step);
    }
  }

  /** `i`, `i - step`, `i - 2 * step`, ... while above `source`. */
  function WalkDown(i: int, source: int, step: int): (r: Mask)
    requires IsPathStep(step)
    ensures forall x :: x in r <==> source < x <= i && Congruent(x, i, step)
    decreases i - source
  {
    if i > source then
      CongruentGap(i, step);
      {i} + WalkDown(i - step, source, step)
    else {}
  }

  /** `i`, `i + step`, `i + 2 * step`, ... while below `source`. */
  function WalkUp(i: int, source: int, step: int): (r: Mask)
    requires IsPathStep(step)
    ensures forall x :: x in r <==> i <= x < source && Congruent(x, i, step)
    decreases source - i
  {
    if i < source then
      CongruentGap(i, step);
      {i} + WalkUp(i + step, source, step)
    else {}
  }

  /** The step a slider's path uses: the first of 9, 7, 8, 1 that divides
      the distance. */
  function PathStep(target: int, source: int): (step: int)
    ensures IsPathStep(step) && Congruent(target, source, step)
  {
    var d := target - source;
    CongruentFacts(target, source, 9);
    CongruentFacts(target, source, 7);
    CongruentFacts(target, source, 8);
    CongruentFacts(target, source, 1);
    if d % 9 == 0 then 9 else if d % 7 == 0 then 7 else if d % 8 == 0 then 8 else 1
  }

  /** The path step between two squares `k` steps apart on a line of
      step `step`: a line of step 8 or 1 is at most six steps long here,
      where the 7-step test would otherwise claim a rank of seven. */
  lemma PathStepMultiple(target: int, source: int, step: int, k: int)
    requires ((step == 9 || step == 7) && 1 <= k <= 7) || ((step == 8 || step == 1) && 1 <= k < 7)
    requires target - source == step * k || source - target == step * k
    ensures PathStep(target, source) == step
  {
    var d := target - source;
    assert d == step * k || d == -(step * k);
    if step == 9 {
      assert d % 9 == 0;
    } else if step == 7 {
      SevenStep(d, k);
    } else if step == 8 {
      EightStep(d, k);
    } else {
      assert d % 9 != 0 && d % 7 != 0 && d % 8 != 0;
    }
  }

  lemma SevenStep(d: int, k: int)
    requires 1 <= k <= 7 && (d == 7 * k || d == -(7 * k))
    ensures d % 9 != 0 && d % 7 == 0
  {
  }

  lemma EightStep(d: int, k: int)
    requires 1 <= k < 7 && (d == 8 * k || d == -(8 * k))
    ensures d % 9 != 0 && d % 7 != 0 && d % 8 == 0
  {
  }

  /** Below the source, the path holds the squares from the target up,
      one step apart. */
  lemma PathMemberBelow(target: int, source: int, x: int, step: int)
    requires IsPathStep(step) && target < source && PathStep(target, source) == step
    requires x in SliderPath(target, source)
    ensures target <= x < source && Congruent(x, target, step)
  {
    assert WalkDown(target, source, step) == {};
  }

  lemma PathHasBelow(target: int, source: int, x: int, step: int)
    requires IsPathStep(step) && target < source && PathStep(target, source) == step
    requires target <= x < source && Congruent(x, target, step)
    ensures x in SliderPath(target, source)
  {
    assert x in WalkUp(target, source, step);
  }

  /** Above the source, the path holds the squares from the target down,
      one step apart. */
  lemma PathMemberAbove(target: int, source: int, x: int, step: int)
    requires IsPathStep(step) && source < target && PathStep(target, source) == step
    requires x in SliderPath(target, source)
    ensures source < x <= target && Congruent(x, target, step)
  {
    assert WalkUp(target, source, step) == {};
  }

  lemma PathHasAbove(target: int, source: int, x: int, step: int)
    requires IsPathStep(step) && source < target && PathStep(target, source) == step
    requires source < x <= target && Congruent(x, target, step)
    ensures x in SliderPath(target, source)
  {
    assert x in WalkDown(target, source, step);
  }

  /** A square congruent to a target `n` steps below the source, and
      between them, is a whole number of steps below the source. */
  lemma StepsBelow(source: int, target: int, x: int, step: int, n: int) returns (m: int)
    requires IsPathStep(step) && target == source - step * n
    requires target <= x < source && Congruent(x, target, step)
    ensures 1 <= m <= n && x == source - step * m
  {
    CongruentFacts(x, target, step);
    m := WholeSteps(source - x, source - target, step, n);
  }

  /** The same above the source. */
  lemma StepsAbove(source: int, target: int, x: int, step: int, n: int) returns (m: int)
    requires IsPathStep(step) && target == source + step * n
    requires source < x <= target && Congruent(x, target, step)
    ensures 1 <= m <= n && x == source + step * m
  {
    CongruentFacts(x, target, step);
    m := WholeSteps(x - source, target - source, step, n);
  }

  /** A positive distance `d` at most `step * n`, whose gap to `step * n`
      is a multiple of the step, is itself `m` steps for some `m` in 1..n. */
  lemma WholeSteps(d: int, total: int, step: int, n: int) returns (m: int)
    requires IsPathStep(step) && total == step * n && 0 < d <= total && (total - d) % step == 0
    ensures 1 <= m <= n && d == step * m
  {
    if step == 9 {
      m := WholeSteps9(d, n);
    } else if step == 7 {
      m := WholeSteps7(d, n);
    } else if step == 8 {
      m := WholeSteps8(d, n);
    } else {
      m := d;
    }
  }

  lemma WholeSteps9(d: int, n: int) returns (m: int)
    requires 0 < d <= 9 * n && (9 * n - d) % 9 == 0
    ensures 1 <= m <= n && d == 9 * m
  {
    m := d / 9;
  }

  lemma WholeSteps7(d: int, n: int) returns (m: int)
    requires 0 < d <= 7 * n && (7 * n - d) % 7 == 0
    ensures 1 <= m <= n && d == 7 * m
  {
    m := d / 7;
  }

  lemma WholeSteps8(d: int, n: int) returns (m: int)
    requires 0 < d <= 8 * n && (8 * n - d) % 8 == 0
    ensures 1 <= m <= n && d == 8 * m
  {
    m := d / 8;
  }

  /** Squares a whole number of steps apart are congruent. */
  lemma StepCongruent(x: int, y: int, step: int, k: int)
    requires IsPathStep(step) && x - y == step * k
    ensures Congruent(x, y, step)
  {
    CongruentFacts(x, y, step);
    if step == 9 {
      assert x - y == 9 * k;
    } else if step == 7 {
      assert x - y == 7 * k;
    } else if step == 8 {
      assert x - y == 8 * k;
    }
  }

  /** ftk_build_path_mask: the squares that must be occupied to block a move
      of `s` from `source` to `target`, target included, source excluded;
      nothing unless `moves` holds the target. */
  function PathMask(s: Square, target: int, source: int, moves: Mask): (r: Mask)
    requires 0 <= target < 64 && 0 <= source < 64
    ensures target !in moves ==> r == {}
    ensures OnBoard(r) && (target != source ==> source !in r)
    ensures target in moves && IsPieceType(s.kind) && target != source ==> target in r
  {
    if target in moves then
      match s.kind
      case Pawn =>
        if target - source == 16 then {target, target - 8}
        else if source - target == 16 then {target, target + 8}
        else {target}
      case Knight => {target}
      case King => {target}
      case Bishop => SliderPath(target, source)
      case Rook => SliderPath(target, source)
      case Queen => SliderPath(target, source)
      case _ => {}
    else {}
  }

  function SliderPath(target: int, source: int): Mask
  {
    var step := PathStep(target, source);
    WalkDown(target, source, step) + WalkUp(target, source, step)
  }

  /** What the path holds for each kind of attacker: the target alone for a
      knight or king, the square passed over as well for a pawn's double
      step, and for a slider the squares stepping from the target toward the
      source by the path step. */
  lemma PathMaskShape(s: Square, target: int, source: int, moves: Mask)
    requires 0 <= target < 64 && 0 <= source < 64 && target in moves
    ensures s.kind == Knight || s.kind == King ==> PathMask(s, target, source, moves) == {target}
    ensures s.kind == Pawn ==>
      PathMask(s, target, source, moves) ==
        {target} + (if target - source == 16 then {target - 8} else if source - target == 16 then {target + 8} else {})
    ensures s.kind == Bishop || s.kind == Rook || s.kind == Queen ==>
      forall x :: x in PathMask(s, target, source, moves) <==>
        (source < x <= target || target <= x < source) && Congruent(x, target, PathStep(target, source))
    ensures !IsPieceType(s.kind) ==> PathMask(s, target, source, moves) == {}
  {
  }

  /** A rook on a1 giving check along the first rank to h1 gets step 7 (the
      distance is 7), so its path holds only the target: the squares b1..g1
      in between are missing. */
  lemma PathAcrossRankSkipsBetween(s: Square, moves: Mask)
    requires s.kind == Rook && H1 in moves
    ensures PathMask(s, H1, A1, moves) == {H1}
  {
    assert WalkUp(H1, A1, 7) == {};
    assert WalkDown(A1, A1, 7) == {};
  }

  /** A rook on a1 attacking a8 (distance 56) also gets step 7: its path is
      a zigzag of squares off the a-file. */
  lemma PathUpFileZigzags(s: Square, moves: Mask)
    requires s.kind == Rook && A8 in moves
    ensures PathMask(s, A8, A1, moves) == {56, 49, 42, 35, 28, 21, 14, 7}
  {
    assert PathStep(A8, A1) == 7;
    var r := PathMask(s, A8, A1, moves);
    forall x ensures x in r <==> x in {56, 49, 42, 35, 28, 21, 14, 7} {
    }
  }

  // ----------------------------------------------------------------------
  // A slider's path follows its line (step by step, direction by direction)

  lemma UpRightTarget(source: int, target: int)
    requires 0 <= source < 64 && 0 <= target < 64 && OnRay(source, target, UpRight)
    ensures target == source + 9 * Dist(source, target)
    ensures FileOf(source) + Dist(source, target) < 8 && RankOf(source) + Dist(source, target) < 8
    ensures PathStep(target, source) == 9
  {
    Coordinates(source, FileOf(source), RankOf(source));
    Coordinates(target, FileOf(target), RankOf(target));
    PathStepMultiple(target, source, 9, Dist(source, target));
  }

  lemma UpRightSquare(source: int, m: int)
    requires 0 <= source < 64 && m >= 1 && FileOf(source) + m < 8 && RankOf(source) + m < 8
    ensures 0 <= source + 9 * m < 64 && OnRay(source, source + 9 * m, UpRight) && Dist(source, source + 9 * m) == m
  {
    Coordinates(source, FileOf(source), RankOf(source));
    Coordinates(source + 9 * m, FileOf(source) + m, RankOf(source) + m);
  }

  lemma UpRightLine(source: int, target: int, x: int)
    requires 0 <= source < 64 && 0 <= target < 64 && OnRay(source, target, UpRight)
    ensures x in SliderPath(target, source) <==>
      x == target || (0 <= x < 64 && OnRay(source, x, UpRight) && Dist(source, x) < Dist(source, target))
  {
    if x in SliderPath(target, source) {
      UpRightLineFrom(source, target, x);
    }
    if 0 <= x < 64 && OnRay(source, x, UpRight) && Dist(source, x) < Dist(source, target) {
      UpRightLineTo(source, target, x);
    }
  }

  lemma UpRightLineFrom(source: int, target: int, x: int)
    requires 0 <= source < 64 && 0 <= target < 64 && OnRay(source, target, UpRight)
    requires x in SliderPath(target, source)
    ensures x == target || (0 <= x < 64 && OnRay(source, x, UpRight) && Dist(source, x) < Dist(source, target))
  {
    UpRightTarget(source, target);
    PathMemberAbove(target, source, x, 9);
    var m := StepsAbove(source, target, x, 9, Dist(source, target));
    UpRightSquare(source, m);
  }

  lemma UpRightLineTo(source: int, target: int, x: int)
    requires 0 <= source < 64 && 0 <= target < 64 && OnRay(source, target, UpRight)
    requires 0 <= x < 64 && OnRay(source, x, UpRight) && Dist(source, x) < Dist(source, target)
    ensures x in SliderPath(target, source)
  {
    UpRightTarget(source, target);
    var m := Dist(source, x);
    UpRightSquare(source, m);
    assert x == source + 9 * m by {
      Coordinates(x, FileOf(x), RankOf(x));
      Coordinates(source, FileOf(source), RankOf(source));
    }
    StepCongruent(x, target, 9, m - Dist(source, target));
    PathHasAbove(target, source, x, 9);
  }

  lemma DownLeftTarget(source: int, target: int)
    requires 0 <= source < 64 && 0 <= target < 64 && OnRay(source, target, DownLeft)
    ensures target == source - 9 * Dist(source, target)
    ensures FileOf(source) - Dist(source, target) >= 0 && RankOf(source) - Dist(source, target) >= 0
    ensures PathStep(target, source) == 9
  {
    Coordinates(source, FileOf(source), RankOf(source));
    Coordinates(target, FileOf(target), RankOf(target));
    PathStepMultiple(target, source, 9, Dist(source, target));
  }

  lemma DownLeftSquare(source: int, m: int)
    requires 0 <= source < 64 && m >= 1 && FileOf(source) - m >= 0 && RankOf(source) - m >= 0
    ensures 0 <= source - 9 * m < 64 && OnRay(source, source - 9 * m, DownLeft) && Dist(source, source - 9 * m) == m
  {
    Coordinates(source, FileOf(source), RankOf(source));
    Coordinates(source - 9 * m, FileOf(source) - m, RankOf(source) - m);
  }

  lemma DownLeftLine(source: int, target: int, x: int)
    requires 0 <= source < 64 && 0 <= target < 64 && OnRay(source, target, DownLeft)
    ensures x in SliderPath(target, source) <==>
      x == target || (0 <= x < 64 && OnRay(source, x, DownLeft) && Dist(source, x) < Dist(source, target))
  {
    if x in SliderPath(target, source) {
      DownLeftLineFrom(source, target, x);
    }
    if 0 <= x < 64 && OnRay(source, x, DownLeft) && Dist(source, x) < Dist(source, target) {
      DownLeftLineTo(source, target, x);
    }
  }

  lemma DownLeftLineFrom(source: int, target: int, x: int)
    requires 0 <= source < 64 && 0 <= target < 64 && OnRay(source, target, DownLeft)
    requires x in SliderPath(target, source)
    ensures x == target || (0 <= x < 64 && OnRay(source, x, DownLeft) && Dist(source, x) < Dist(source, target))
  {
    DownLeftTarget(source, target);
    PathMemberBelow(target, source, x, 9);
    var m := StepsBelow(source, target, x, 9, Dist(source, target));
    DownLeftSquare(source, m);
  }

  lemma DownLeftLineTo(source: int, target: int, x: int)
    requires 0 <= source < 64 && 0 <= target < 64 && OnRay(source, target, DownLeft)
    requires 0 <= x < 64 && OnRay(source, x, DownLeft) && Dist(source, x) < Dist(source, target)
    ensures x in SliderPath(target, source)
  {
    DownLeftTarget(source, target);
    var m := Dist(source, x);
    DownLeftSquare(source, m);
    assert x == source - 9 * m by {
      Coordinates(x, FileOf(x), RankOf(x));
      Coordinates(source, FileOf(source), RankOf(source));
    }
    StepCongruent(x, target, 9, Dist(source, target) - m);
    PathHasBelow(target, source, x, 9);
  }

  lemma UpLeftTarget(source: int, target: int)
    requires 0 <= source < 64 && 0 <= target < 64 && OnRay(source, target, UpLeft)
    ensures target == source + 7 * Dist(source, target)
    ensures FileOf(source) - Dist(source, target) >= 0 && RankOf(source) + Dist(source, target) < 8
    ensures PathStep(target, source) == 7
  {
    Coordinates(source, FileOf(source), RankOf(source));
    Coordinates(target, FileOf(target), RankOf(target));
    PathStepMultiple(target, source, 7, Dist(source, target));
  }

  lemma UpLeftSquare(source: int, m: int)
    requires 0 <= source < 64 && m >= 1 && FileOf(source) - m >= 0 && RankOf(source) + m < 8
    ensures 0 <= source + 7 * m < 64 && OnRay(source, source + 7 * m, UpLeft) && Dist(source, source + 7 * m) == m
  {
    Coordinates(source, FileOf(source), RankOf(source));
    Coordinates(source + 7 * m, FileOf(source) - m, RankOf(source) + m);
  }

  lemma UpLeftLine(source: int, target: int, x: int)
    requires 0 <= source < 64 && 0 <= target < 64 && OnRay(source, target, UpLeft)
    ensures x in SliderPath(target, source) <==>
      x == target || (0 <= x < 64 && OnRay(source, x, UpLeft) && Dist(source, x) < Dist(source, target))
  {
    if x in SliderPath(target, source) {
      UpLeftLineFrom(source, target, x);
    }
    if 0 <= x < 64 && OnRay(source, x, UpLeft) && Dist(source, x) < Dist(source, target) {
      UpLeftLineTo(source, target, x);
    }
  }

  lemma UpLeftLineFrom(source: int, target: int, x: int)
    requires 0 <= source < 64 && 0 <= target < 64 && OnRay(source, target, UpLeft)
    requires x in SliderPath(target, source)
    ensures x == target || (0 <= x < 64 && OnRay(source, x, UpLeft) && Dist(source, x) < Dist(source, target))
  {
    UpLeftTarget(source, target);
    PathMemberAbove(target, source, x, 7);
    var m := StepsAbove(source, target, x, 7, Dist(source, target));
    UpLeftSquare(source, m);
  }

  lemma UpLeftLineTo(source: int, target: int, x: int)
    requires 0 <= source < 64 && 0 <= target < 64 && OnRay(source, target, UpLeft)
    requires 0 <= x < 64 && OnRay(source, x, UpLeft) && Dist(source, x) < Dist(source, target)
    ensures x in SliderPath(target, source)
  {
    UpLeftTarget(source, target);
    var m := Dist(source, x);
    UpLeftSquare(source, m);
    assert x == source + 7 * m by {
      Coordinates(x, FileOf(x), RankOf(x));
      Coordinates(source, FileOf(source), RankOf(source));
    }
    StepCongruent(x, target, 7, m - Dist(source, target));
    PathHasAbove(target, source, x, 7);
  }

  lemma DownRightTarget(source: int, target: int)
    requires 0 <= source < 64 && 0 <= target < 64 && OnRay(source, target, DownRight)
    ensures target == source - 7 * Dist(source, target)
    ensures FileOf(source) + Dist(source, target) < 8 && RankOf(source) - Dist(source, target) >= 0
    ensures PathStep(target, source) == 7
  {
    Coordinates(source, FileOf(source), RankOf(source));
    Coordinates(target, FileOf(target), RankOf(target));
    PathStepMultiple(target, source, 7, Dist(source, target));
  }

  lemma DownRightSquare(source: int, m: int)
    requires 0 <= source < 64 && m >= 1 && FileOf(source) + m < 8 && RankOf(source) - m >= 0
    ensures 0 <= source - 7 * m < 64 && OnRay(source, source - 7 * m, DownRight) && Dist(source, source - 7 * m) == m
  {
    Coordinates(source, FileOf(source), RankOf(source));
    Coordinates(source - 7 * m, FileOf(source) + m, RankOf(source) - m);
  }

  lemma DownRightLine(source: int, target: int, x: int)
    requires 0 <= source < 64 && 0 <= target < 64 && OnRay(source, target, DownRight)
    ensures x in SliderPath(target, source) <==>
      x == target || (0 <= x < 64 && OnRay(source, x, DownRight) && Dist(source, x) < Dist(source, target))
  {
    if x in SliderPath(target, source) {
      DownRightLineFrom(source, target, x);
    }
    if 0 <= x < 64 && OnRay(source, x, DownRight) && Dist(source, x) < Dist(source, target) {
      DownRightLineTo(source, target, x);
    }
  }

  lemma DownRightLineFrom(source: int, target: int, x: int)
    requires 0 <= source < 64 && 0 <= target < 64 && OnRay(source, target, DownRight)
    requires x in SliderPath(target, source)
    ensures x == target || (0 <= x < 64 && OnRay(source, x, DownRight) && Dist(source, x) < Dist(source, target))
  {
    DownRightTarget(source, target);
    PathMemberBelow(target, source, x, 7);
    var m := StepsBelow(source, target, x, 7, Dist(source, target));
    DownRightSquare(source, m);
  }

  lemma DownRightLineTo(source: int, target: int, x: int)
    requires 0 <= source < 64 && 0 <= target < 64 && OnRay(source, target, DownRight)
    requires 0 <= x < 64 && OnRay(source, x, DownRight) && Dist(source, x) < Dist(source, target)
    ensures x in SliderPath(target, source)
  {
    DownRightTarget(source, target);
    var m := Dist(source, x);
    DownRightSquare(source, m);
    assert x == source - 7 * m by {
      Coordinates(x, FileOf(x), RankOf(x));
      Coordinates(source, FileOf(source), RankOf(source));
    }
    StepCongruent(x, target, 7, Dist(source, target) - m);
    PathHasBelow(target, source, x, 7);
  }

  lemma RightTarget(source: int, target: int)
    requires 0 <= source < 64 && 0 <= target < 64 && OnRay(source, target, Right) && Dist(source, target) < 7
    ensures target == source + Dist(source, target)
    ensures FileOf(source) + Dist(source, target) < 8
    ensures PathStep(target, source) == 1
  {
    Coordinates(source, FileOf(source), RankOf(source));
    Coordinates(target, FileOf(target), RankOf(target));
    PathStepMultiple(target, source, 1, Dist(source, target));
  }

  lemma RightSquare(source: int, m: int)
    requires 0 <= source < 64 && m >= 1 && FileOf(source) + m < 8
    ensures 0 <= source + m < 64 && OnRay(source, source + m, Right) && Dist(source, source + m) == m
  {
    Coordinates(source, FileOf(source), RankOf(source));
    Coordinates(source + m, FileOf(source) + m, RankOf(source));
  }

  lemma RightLine(source: int, target: int, x: int)
    requires 0 <= source < 64 && 0 <= target < 64 && OnRay(source, target, Right) && Dist(source, target) < 7
    ensures x in SliderPath(target, source) <==>
      x == target || (0 <= x < 64 && OnRay(source, x, Right) && Dist(source, x) < Dist(source, target))
  {
    if x in SliderPath(target, source) {
      RightLineFrom(source, target, x);
    }
    if 0 <= x < 64 && OnRay(source, x, Right) && Dist(source, x) < Dist(source, target) {
      RightLineTo(source, target, x);
    }
  }

  lemma RightLineFrom(source: int, target: int, x: int)
    requires 0 <= source < 64 && 0 <= target < 64 && OnRay(source, target, Right) && Dist(source, target) < 7
    requires x in SliderPath(target, source)
    ensures x == target || (0 <= x < 64 && OnRay(source, x, Right) && Dist(source, x) < Dist(source, target))
  {
    RightTarget(source, target);
    PathMemberAbove(target, source, x, 1);
    var m := StepsAbove(source, target, x, 1, Dist(source, target));
    RightSquare(source, m);
  }

  lemma RightLineTo(source: int, target: int, x: int)
    requires 0 <= source < 64 && 0 <= target < 64 && OnRay(source, target, Right) && Dist(source, target) < 7
    requires 0 <= x < 64 && OnRay(source, x, Right) && Dist(source, x) < Dist(source, target)
    ensures x in SliderPath(target, source)
  {
    RightTarget(source, target);
    var m := Dist(source, x);
    RightSquare(source, m);
    assert x == source + m by {
      Coordinates(x, FileOf(x), RankOf(x));
      Coordinates(source, FileOf(source), RankOf(source));
    }
    StepCongruent(x, target, 1, m - Dist(source, target));
    PathHasAbove(target, source, x, 1);
  }

  lemma LeftTarget(source: int, target: int)
    requires 0 <= source < 64 && 0 <= target < 64 && OnRay(source, target, Left) && Dist(source, target) < 7
    ensures target == source - Dist(source, target)
    ensures FileOf(source) - Dist(source, target) >= 0
    ensures PathStep(target, source) == 1
  {
    Coordinates(source, FileOf(source), RankOf(source));
    Coordinates(target, FileOf(target), RankOf(target));
    PathStepMultiple(target, source, 1, Dist(source, target));
  }

  lemma LeftSquare(source: int, m: int)
    requires 0 <= source < 64 && m >= 1 && FileOf(source) - m >= 0
    ensures 0 <= source - m < 64 && OnRay(source, source - m, Left) && Dist(source, source - m) == m
  {
    Coordinates(source, FileOf(source), RankOf(source));
    Coordinates(source - m, FileOf(source) - m, RankOf(source));
  }

  lemma LeftLine(source: int, target: int, x: int)
    requires 0 <= source < 64 && 0 <= target < 64 && OnRay(source, target, Left) && Dist(source, target) < 7
    ensures x in SliderPath(target, source) <==>
      x == target || (0 <= x < 64 && OnRay(source, x, Left) && Dist(source, x) < Dist(source, target))
  {
    if x in SliderPath(target, source) {
      LeftLineFrom(source, target, x);
    }
    if 0 <= x < 64 && OnRay(source, x, Left) && Dist(source, x) < Dist(source, target) {
      LeftLineTo(source, target, x);
    }
  }

  lemma LeftLineFrom(source: int, target: int, x: int)
    requires 0 <= source < 64 && 0 <= target < 64 && OnRay(source, target, Left) && Dist(source, target) < 7
    requires x in SliderPath(target, source)
    ensures x == target || (0 <= x < 64 && OnRay(source, x, Left) && Dist(source, x) < Dist(source, target))
  {
    LeftTarget(source, target);
    PathMemberBelow(target, source, x, 1);
    var m := StepsBelow(source, target, x, 1, Dist(source, target));
    LeftSquare(source, m);
  }

  lemma LeftLineTo(source: int, target: int, x: int)
    requires 0 <= source < 64 && 0 <= target < 64 && OnRay(source, target, Left) && Dist(source, target) < 7
    requires 0 <= x < 64 && OnRay(source, x, Left) && Dist(source, x) < Dist(source, target)
    ensures x in SliderPath(target, source)
  {
    LeftTarget(source, target);
    var m := Dist(source, x);
    LeftSquare(source, m);
    assert x == source - m by {
      Coordinates(x, FileOf(x), RankOf(x));
      Coordinates(source, FileOf(source), RankOf(source));
    }
    StepCongruent(x, target, 1, Dist(source, target) - m);
    PathHasBelow(target, source, x, 1);
  }

  lemma UpTarget(source: int, target: int)
    requires 0 <= source < 64 && 0 <= target < 64 && OnRay(source, target, Up) && Dist(source, target) < 7
    ensures target == source + 8 * Dist(source, target)
    ensures RankOf(source) + Dist(source, target) < 8
    ensures PathStep(target, source) == 8
  {
    Coordinates(source, FileOf(source), RankOf(source));
    Coordinates(target, FileOf(target), RankOf(target));
    PathStepMultiple(target, source, 8, Dist(source, target));
  }

  lemma UpSquare(source: int, m: int)
    requires 0 <= source < 64 && m >= 1 && RankOf(source) + m < 8
    ensures 0 <= source + 8 * m < 64 && OnRay(source, source + 8 * m, Up) && Dist(source, source + 8 * m) == m
  {
    Coordinates(source, FileOf(source), RankOf(source));
    Coordinates(source + 8 * m, FileOf(source), RankOf(source) + m);
  }

  lemma UpLine(source: int, target: int, x: int)
    requires 0 <= source < 64 && 0 <= target < 64 && OnRay(source, target, Up) && Dist(source, target) < 7
    ensures x in SliderPath(target, source) <==>
      x == target || (0 <= x < 64 && OnRay(source, x, Up) && Dist(source, x) < Dist(source, target))
  {
    if x in SliderPath(target, source) {
      UpLineFrom(source, target, x);
    }
    if 0 <= x < 64 && OnRay(source, x, Up) && Dist(source, x) < Dist(source, target) {
      UpLineTo(source, target, x);
    }
  }

  lemma UpLineFrom(source: int, target: int, x: int)
    requires 0 <= source < 64 && 0 <= target < 64 && OnRay(source, target, Up) && Dist(source, target) < 7
    requires x in SliderPath(target, source)
    ensures x == target || (0 <= x < 64 && OnRay(source, x, Up) && Dist(source, x) < Dist(source, target))
  {
    UpTarget(source, target);
    PathMemberAbove(target, source, x, 8);
    var m := StepsAbove(source, target, x, 8, Dist(source, target));
    UpSquare(source, m);
  }

  lemma UpLineTo(source: int, target: int, x: int)
    requires 0 <= source < 64 && 0 <= target < 64 && OnRay(source, target, Up) && Dist(source, target) < 7
    requires 0 <= x < 64 && OnRay(source, x, Up) && Dist(source, x) < Dist(source, target)
    ensures x in SliderPath(target, source)
  {
    UpTarget(source, target);
    var m := Dist(source, x);
    UpSquare(source, m);
    assert x == source + 8 * m by {
      Coordinates(x, FileOf(x), RankOf(x));
      Coordinates(source, FileOf(source), RankOf(source));
    }
    StepCongruent(x, target, 8, m - Dist(source, target));
    PathHasAbove(target, source, x, 8);
  }

  lemma DownTarget(source: int, target: int)
    requires 0 <= source < 64 && 0 <= target < 64 && OnRay(source, target, Down) && Dist(source, target) < 7
    ensures target == source - 8 * Dist(source, target)
    ensures RankOf(source) - Dist(source, target) >= 0
    ensures PathStep(target, source) == 8
  {
    Coordinates(source, FileOf(source), RankOf(source));
    Coordinates(target, FileOf(target), RankOf(target));
    PathStepMultiple(target, source, 8, Dist(source, target));
  }

  lemma DownSquare(source: int, m: int)
    requires 0 <= source < 64 && m >= 1 && RankOf(source) - m >= 0
    ensures 0 <= source - 8 * m < 64 && OnRay(source, source - 8 * m, Down) && Dist(source, source - 8 * m) == m
  {
    Coordinates(source, FileOf(source), RankOf(source));
    Coordinates(source - 8 * m, FileOf(source), RankOf(source) - m);
  }

  lemma DownLine(source: int, target: int, x: int)
    requires 0 <= source < 64 && 0 <= target < 64 && OnRay(source, target, Down) && Dist(source, target) < 7
    ensures x in SliderPath(target, source) <==>
      x == target || (0 <= x < 64 && OnRay(source, x, Down) && Dist(source, x) < Dist(source, target))
  {
    if x in SliderPath(target, source) {
      DownLineFrom(source, target, x);
    }
    if 0 <= x < 64 && OnRay(source, x, Down) && Dist(source, x) < Dist(source, target) {
      DownLineTo(source, target, x);
    }
  }

  lemma DownLineFrom(source: int, target: int, x: int)
    requires 0 <= source < 64 && 0 <= target < 64 && OnRay(source, target, Down) && Dist(source, target) < 7
    requires x in SliderPath(target, source)
    ensures x == target || (0 <= x < 64 && OnRay(source, x, Down) && Dist(source, x) < Dist(source, target))
  {
    DownTarget(source, target);
    PathMemberBelow(target, source, x, 8);
    var m := StepsBelow(source, target, x, 8, Dist(source, target));
    DownSquare(source, m);
  }

  lemma DownLineTo(source: int, target: int, x: int)
    requires 0 <= source < 64 && 0 <= target < 64 && OnRay(source, target, Down) && Dist(source, target) < 7
    requires 0 <= x < 64 && OnRay(source, x, Down) && Dist(source, x) < Dist(source, target)
    ensures x in SliderPath(target, source)
  {
    DownTarget(source, target);
    var m := Dist(source, x);
    DownSquare(source, m);
    assert x == source - 8 * m by {
      Coordinates(x, FileOf(x), RankOf(x));
      Coordinates(source, FileOf(source), RankOf(source));
    }
    StepCongruent(x, target, 8, Dist(source, target) - m);
    PathHasBelow(target, source, x, 8);
  }

  /** When a bishop, rook or queen attacks along a diagonal, or along a
    file or rank by fewer than seven squares, its path is the target and
    exactly the squares between it and the attacker on that line. */
  lemma SliderPathAlongLine(s: Square, target: int, source: int, moves: Mask, x: int)
    requires 0 <= target < 64 && 0 <= source < 64 && target in moves
    requires s.kind == Bishop || s.kind == Rook || s.kind == Queen
    requires Diagonal(source, target) || (Straight(source, target) && Dist(source, target) < 7)
    ensures x in PathMask(s, target, source, moves) <==>
      x == target ||
      (0 <= x < 64 && OnRay(source, x, DirectionTo(source, target)) && Dist(source, x) < Dist(source, target))
  {
    var d := DirectionTo(source, target);
    OnRayDirection(source, target, d);
    if d == UpRight {
      UpRightLine(source, target, x);
    } else if d == DownLeft {
      DownLeftLine(source, target, x);
    } else if d == UpLeft {
      UpLeftLine(source, target, x);
    } else if d == DownRight {
      DownRightLine(source, target, x);
    } else if d == Right {
      RightLine(source, target, x);
    } else if d == Left {
      LeftLine(source, target, x);
    } else if d == Up {
      UpLine(source, target, x);
    } else {
      DownLine(source, target, x);
    }
  }
}
