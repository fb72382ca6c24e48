/** The king-safety resolver and the castling filter, as functions of the
    squares, the cached masks and the pseudo-legal move masks. The engine's
    in-place procedures are proved to compute exactly these. */
module Legality {
  import opened Types
  import opened Masks

  /** The occupied squares of the side to move, and of its opponent. */
  function TurnMask(c: CachedMasks, turn: Color): Mask
  {
    if turn == White then c.white else c.black
  }

  function OpponentMask(c: CachedMasks, turn: Color): Mask
  {
    if turn == White then c.black else c.white
  }

  /** The square of the side-to-move's king: the highest one if there are
      several, square 0 if there is none. */
  function KingSquare(c: CachedMasks, turn: Color): (k: int)
    ensures 0 <= k < 64
  {
    HighestSquare(c.king * TurnMask(c, turn))
  }

  /** A square whose piece belongs to the opponent of the side to move. */
  predicate Attacker(squares: seq<Square>, turn: Color, i: int)
    requires |squares| == 64
  {
    0 <= i < 64 && squares[i].kind != Empty && squares[i].color != turn
  }

  /** A square holding a piece of the side to move other than its king. */
  predicate Defender(squares: seq<Square>, turn: Color, j: int)
    requires |squares| == 64
  {
    0 <= j < 64 && squares[j].kind != Empty && squares[j].kind != King && squares[j].color == turn
  }

  // ----------------------------------------------------------------------
  // The pieces of the resolver

  /** The forward squares a pawn's mask may hold; they are not attacks. */
  function PawnForward(s: Square, i: int): Mask
  {
    if s.color == White then
      (if i + 8 < 64 then {i + 8} else {}) + (if i + 16 < 64 then {i + 16} else {})
    else
      (if i >= 8 then {i - 8} else {}) + (if i >= 16 then {i - 16} else {})
  }

  /** The squares the piece on `i` attacks, as far as its mask `m` tells:
      all of it, less the forward squares for a pawn. */
  function AttackMask(s: Square, m: Mask, i: int): (a: Mask)
    ensures a <= m
    ensures s.kind != Pawn ==> a == m
  {
    if s.kind == Pawn then m - PawnForward(s, i) else m
  }

  /** Every defender's mask cut down to `allowed`; the others kept. */
  function Confine(squares: seq<Square>, turn: Color, masks: seq<Mask>, allowed: Mask): (r: seq<Mask>)
    requires |squares| == 64 && |masks| == 64
    ensures |r| == 64
    ensures forall j :: 0 <= j < 64 ==> r[j] == if Defender(squares, turn, j) then masks[j] * allowed else masks[j]
  {
    seq(64, j requires 0 <= j < 64 => if Defender(squares, turn, j) then masks[j] * allowed else masks[j])
  }

  /** A square of `cross` that is not a king: a piece standing in a path. */
  predicate IsBlocker(squares: seq<Square>, cross: Mask, q: int)
    requires |squares| == 64
  {
    0 <= q < 64 && q in cross && squares[q].kind != King
  }

  /** The scan for the one non-king piece of `cross`, from square `j` on,
      having found `found` so far (XX for none); a second one ends the
      scan with XX. */
  function ScanBlocker(squares: seq<Square>, cross: Mask, j: int, found: int): (p: int)
    requires |squares| == 64 && 0 <= j <= 64
    requires found == XX || (0 <= found < j && IsBlocker(squares, cross, found))
    requires found != XX ==> forall q :: 0 <= q < j && IsBlocker(squares, cross, q) ==> q == found
    requires found == XX ==> forall q :: 0 <= q < j ==> !IsBlocker(squares, cross, q)
    ensures p != XX ==> IsBlocker(squares, cross, p) && forall q :: IsBlocker(squares, cross, q) ==> q == p
    ensures p == XX ==>
      (forall q :: !IsBlocker(squares, cross, q)) ||
      exists q1, q2 :: IsBlocker(squares, cross, q1) && IsBlocker(squares, cross, q2) && q1 != q2
    decreases 64 - j
  {
    if j == 64 then found
    else if j in cross && squares[j].kind != King then
      if found != XX then
        assert IsBlocker(squares, cross, found) && IsBlocker(squares, cross, j);
        XX
      else ScanBlocker(squares, cross, j + 1, j)
    else ScanBlocker(squares, cross, j + 1, found)
  }

  /** The protecting piece of `cross`: the only non-king piece in it, or XX
      when there is none or more than one. */
  function SoleBlocker(squares: seq<Square>, cross: Mask): int
    requires |squares| == 64
  {
    ScanBlocker(squares, cross, 0, XX)
  }

  /** The path from attacker `i` to square `k` as if the side to move had no
      pieces in the way: its own pieces block, the side to move's pieces
      are capturable. */
  function ProbePath(squares: seq<Square>, c: CachedMasks, turn: Color, k: int, i: int): Mask
    requires |squares| == 64 && 0 <= i < 64 && 0 <= k < 64
  {
    PathMask(squares[i], k, i, RawMoves(squares[i], OpponentMask(c, turn), TurnMask(c, turn), i, XX))
  }

  /** The piece pinned by attacker `i` against square `k`, or XX. */
  function Pinned(squares: seq<Square>, c: CachedMasks, turn: Color, k: int, i: int): int
    requires |squares| == 64 && 0 <= i < 64 && 0 <= k < 64
  {
    var path := ProbePath(squares, c, turn, k, i);
    if path != {} then SoleBlocker(squares, path * TurnMask(c, turn)) else XX
  }

  // ----------------------------------------------------------------------
  // ftk_strip_check, one attacker at a time

  datatype StripState = StripState(masks: seq<Mask>, check: CheckState)

  /** What the loop of ftk_strip_check does for square `i`. */
  function StripStep(squares: seq<Square>, c: CachedMasks, turn: Color, st: StripState, i: int): (r: StripState)
    requires |squares| == 64 && |st.masks| == 64 && 0 <= i < 64
    ensures |r.masks| == 64
    ensures forall j :: 0 <= j < 64 ==> r.masks[j] <= st.masks[j]
  {
    if !Attacker(squares, turn, i) then st
    else PinStep(squares, c, turn, CheckStep(squares, turn, KingSquare(c, turn), st, i), KingSquare(c, turn), i)
  }

  /** The attacker on `i` takes its attacks out of the king's mask; if it
      gives check, every defender is confined to its path. */
  function CheckStep(squares: seq<Square>, turn: Color, k: int, st: StripState, i: int): (r: StripState)
    requires |squares| == 64 && |st.masks| == 64 && 0 <= i < 64 && 0 <= k < 64
    ensures |r.masks| == 64
    ensures forall j :: 0 <= j < 64 ==> r.masks[j] <= st.masks[j]
  {
    var s := squares[i];
    var m1 := st.masks[k := st.masks[k] - AttackMask(s, st.masks[i], i)];
    if k in m1[i] then StripState(Confine(squares, turn, m1, PathMask(s, k, i, m1[i]) + {i}), InCheck)
    else StripState(m1, st.check)
  }

  /** The piece the attacker on `i` pins, if any, is confined to the pin
      line. */
  function PinStep(squares: seq<Square>, c: CachedMasks, turn: Color, st: StripState, k: int, i: int): (r: StripState)
    requires |squares| == 64 && |st.masks| == 64 && 0 <= i < 64 && 0 <= k < 64
    ensures |r.masks| == 64
    ensures forall j :: 0 <= j < 64 ==> r.masks[j] <= st.masks[j]
  {
    var path := ProbePath(squares, c, turn, k, i);
    var p := Pinned(squares, c, turn, k, i);
    if p != XX then
      assert IsBlocker(squares, path * TurnMask(c, turn), p);
      st.(masks := st.masks[p := st.masks[p] * (path + {i})])
    else st
  }

  /** The state after the loop has visited squares 0 .. n-1. */
  function StripUpTo(squares: seq<Square>, c: CachedMasks, turn: Color, m0: seq<Mask>, n: int): (r: StripState)
    requires |squares| == 64 && |m0| == 64 && 0 <= n <= 64
    ensures |r.masks| == 64
    decreases n
  {
    if n == 0 then StripState(m0, NoCheck)
    else StripStep(squares, c, turn, StripUpTo(squares, c, turn, m0, n - 1), n - 1)
  }

  /** ftk_strip_check: the new move masks and the check status. */
  function Strip(squares: seq<Square>, c: CachedMasks, turn: Color, m0: seq<Mask>): StripState
    requires |squares| == 64 && |m0| == 64
  {
    StripUpTo(squares, c, turn, m0, 64)
  }

  // ----------------------------------------------------------------------
  // What the resolver does, in closed form

  /** Tidy squares, cached masks built from them, White or Black to move,
      and no attacker standing on the king square (which is square 0 when
      the side to move has no king). */
  predicate Setting(squares: seq<Square>, c: CachedMasks, turn: Color, m0: seq<Mask>)
  {
    TidyBoard(squares) && c == BuildAll(squares) && (turn == White || turn == Black) && |m0| == 64 &&
    !Attacker(squares, turn, KingSquare(c, turn))
  }

  lemma TurnMaskHoldsTurn(squares: seq<Square>, c: CachedMasks, turn: Color)
    requires TidyBoard(squares) && c == BuildAll(squares) && (turn == White || turn == Black)
    ensures forall p :: p in TurnMask(c, turn) <==> 0 <= p < 64 && squares[p].kind != Empty && squares[p].color == turn
  {
    BuildAllMembers(squares);
  }

  /** A pinned piece is a defender. */
  lemma PinnedIsDefender(squares: seq<Square>, c: CachedMasks, turn: Color, k: int, i: int)
    requires TidyBoard(squares) && c == BuildAll(squares) && (turn == White || turn == Black)
    requires 0 <= i < 64 && 0 <= k < 64 && Pinned(squares, c, turn, k, i) != XX
    ensures Defender(squares, turn, Pinned(squares, c, turn, k, i))
    ensures Pinned(squares, c, turn, k, i) in ProbePath(squares, c, turn, k, i)
  {
    TurnMaskHoldsTurn(squares, c, turn);
  }

  /** Every piece the probe of an attacker finds pinned is a defender. */
  predicate PinsDefenders(squares: seq<Square>, c: CachedMasks, turn: Color)
    requires |squares| == 64
  {
    forall i :: 0 <= i < 64 && Pinned(squares, c, turn, KingSquare(c, turn), i) != XX ==>
      Defender(squares, turn, Pinned(squares, c, turn, KingSquare(c, turn), i))
  }

  /** What the closed form of the resolver needs of a position. */
  predicate Resolvable(squares: seq<Square>, c: CachedMasks, turn: Color, m0: seq<Mask>)
  {
    |squares| == 64 && |m0| == 64 && !Attacker(squares, turn, KingSquare(c, turn)) && PinsDefenders(squares, c, turn)
  }

  lemma SettingIsResolvable(squares: seq<Square>, c: CachedMasks, turn: Color, m0: seq<Mask>)
    requires Setting(squares, c, turn, m0)
    ensures Resolvable(squares, c, turn, m0)
  {
    forall i | 0 <= i < 64 && Pinned(squares, c, turn, KingSquare(c, turn), i) != XX
      ensures Defender(squares, turn, Pinned(squares, c, turn, KingSquare(c, turn), i))
    {
      PinnedIsDefender(squares, c, turn, KingSquare(c, turn), i);
    }
  }

  /** One pass of the loop, destination by destination. */
  lemma StripStepMembership(squares: seq<Square>, c: CachedMasks, turn: Color, st: StripState, i: int, j: int, t: int)
    requires |squares| == 64 && |st.masks| == 64 && 0 <= i < 64 && 0 <= j < 64
    requires Attacker(squares, turn, i) ==> i != KingSquare(c, turn)
    ensures var k := KingSquare(c, turn);
      var r := StripStep(squares, c, turn, st, i);
      (r.check == if Attacker(squares, turn, i) && k in st.masks[i] then InCheck else st.check) &&
      (t in r.masks[j] <==>
        t in st.masks[j] &&
        (Attacker(squares, turn, i) ==>
          (j == k ==> t !in AttackMask(squares[i], st.masks[i], i)) &&
          (k in st.masks[i] && Defender(squares, turn, j) ==> t in CheckPath(squares, k, st.masks, i)) &&
          (Pinned(squares, c, turn, k, i) == j ==> t in ProbePath(squares, c, turn, k, i) + {i})))
  {
  }

  /** The resolver leaves every mask alone except the king square's and the
      defenders'. */
  lemma {:induction false} StripLeavesOthersUpTo(squares: seq<Square>, c: CachedMasks, turn: Color, m0: seq<Mask>, n: int, j: int)
    requires Resolvable(squares, c, turn, m0) && 0 <= n <= 64 && 0 <= j < 64
    requires j != KingSquare(c, turn) && !Defender(squares, turn, j)
    ensures StripUpTo(squares, c, turn, m0, n).masks[j] == m0[j]
    decreases n
  {
    if n > 0 {
      StripLeavesOthersUpTo(squares, c, turn, m0, n - 1, j);
      var i := n - 1;
      var st := StripUpTo(squares, c, turn, m0, n - 1);
      if Attacker(squares, turn, i) {
        forall t ensures t in StripStep(squares, c, turn, st, i).masks[j] <==> t in m0[j] {
          StripStepMembership(squares, c, turn, st, i, j, t);
        }
      }
    }
  }

  /** `t` survives in the king's mask: no attacker before `n` attacks it. */
  predicate KingSafe(squares: seq<Square>, turn: Color, m0: seq<Mask>, n: int, t: int)
    requires |squares| == 64 && |m0| == 64 && n <= 64
  {
    forall i :: 0 <= i < n && Attacker(squares, turn, i) ==> t !in AttackMask(squares[i], m0[i], i)
  }

  /** The path from attacker `i`, which gives check, plus the attacker itself. */
  function CheckPath(squares: seq<Square>, k: int, m0: seq<Mask>, i: int): Mask
    requires |squares| == 64 && |m0| == 64 && 0 <= i < 64 && 0 <= k < 64
  {
    PathMask(squares[i], k, i, m0[i]) + {i}
  }

  /** `t` blocks or captures every checking attacker before `n`. */
  predicate CheckConfined(squares: seq<Square>, turn: Color, k: int, m0: seq<Mask>, n: int, t: int)
    requires |squares| == 64 && |m0| == 64 && n <= 64 && 0 <= k < 64
  {
    forall i :: 0 <= i < n && Attacker(squares, turn, i) && k in m0[i] ==> t in CheckPath(squares, k, m0, i)
  }

  /** `t` stays on the pin line of every attacker before `n` that pins `j`. */
  predicate PinConfined(squares: seq<Square>, c: CachedMasks, turn: Color, k: int, n: int, j: int, t: int)
    requires |squares| == 64 && n <= 64 && 0 <= k < 64
  {
    forall i :: 0 <= i < n && Attacker(squares, turn, i) && Pinned(squares, c, turn, k, i) == j ==>
      t in ProbePath(squares, c, turn, k, i) + {i}
  }

  lemma ConfinementsStep(squares: seq<Square>, c: CachedMasks, turn: Color, m0: seq<Mask>, n: int, j: int, t: int)
    requires |squares| == 64 && |m0| == 64 && 0 < n <= 64
    ensures var k := KingSquare(c, turn); var i := n - 1;
      (KingSafe(squares, turn, m0, n, t) <==>
        KingSafe(squares, turn, m0, n - 1, t) && (Attacker(squares, turn, i) ==> t !in AttackMask(squares[i], m0[i], i))) &&
      (CheckConfined(squares, turn, k, m0, n, t) <==>
        CheckConfined(squares, turn, k, m0, n - 1, t) && (Attacker(squares, turn, i) && k in m0[i] ==> t in CheckPath(squares, k, m0, i))) &&
      (PinConfined(squares, c, turn, k, n, j, t) <==>
        PinConfined(squares, c, turn, k, n - 1, j, t) &&
        (Attacker(squares, turn, i) && Pinned(squares, c, turn, k, i) == j ==> t in ProbePath(squares, c, turn, k, i) + {i}))
  {
    KingSafeStep(squares, turn, m0, n, t);
    CheckConfinedStep(squares, turn, KingSquare(c, turn), m0, n, t);
    PinConfinedStep(squares, c, turn, KingSquare(c, turn), n, j, t);
  }

  lemma KingSafeStep(squares: seq<Square>, turn: Color, m0: seq<Mask>, n: int, t: int)
    requires |squares| == 64 && |m0| == 64 && 0 < n <= 64
    ensures KingSafe(squares, turn, m0, n, t) <==>
      KingSafe(squares, turn, m0, n - 1, t) && (Attacker(squares, turn, n - 1) ==> t !in AttackMask(squares[n - 1], m0[n - 1], n - 1))
  {
  }

  lemma CheckConfinedStep(squares: seq<Square>, turn: Color, k: int, m0: seq<Mask>, n: int, t: int)
    requires |squares| == 64 && |m0| == 64 && 0 < n <= 64 && 0 <= k < 64
    ensures CheckConfined(squares, turn, k, m0, n, t) <==>
      CheckConfined(squares, turn, k, m0, n - 1, t) && (Attacker(squares, turn, n - 1) && k in m0[n - 1] ==> t in CheckPath(squares, k, m0, n - 1))
  {
  }

  lemma PinConfinedStep(squares: seq<Square>, c: CachedMasks, turn: Color, k: int, n: int, j: int, t: int)
    requires |squares| == 64 && 0 < n <= 64 && 0 <= k < 64
    ensures PinConfined(squares, c, turn, k, n, j, t) <==>
      PinConfined(squares, c, turn, k, n - 1, j, t) &&
      (Attacker(squares, turn, n - 1) && Pinned(squares, c, turn, k, n - 1) == j ==> t in ProbePath(squares, c, turn, k, n - 1) + {n - 1})
  {
  }

  /** After the first `n` squares, a destination survives in a mask exactly
      when it was there, the king's mask avoids every attack, a defender's
      mask meets every check, and a pinned piece stays on its pin line. */
  lemma {:induction false} StripClosedFormUpTo(squares: seq<Square>, c: CachedMasks, turn: Color, m0: seq<Mask>, n: int, j: int, t: int)
    requires Resolvable(squares, c, turn, m0) && 0 <= n <= 64 && 0 <= j < 64
    ensures var k := KingSquare(c, turn);
      t in StripUpTo(squares, c, turn, m0, n).masks[j] <==>
        t in m0[j] &&
        (j == k ==> KingSafe(squares, turn, m0, n, t)) &&
        (Defender(squares, turn, j) ==> CheckConfined(squares, turn, k, m0, n, t)) &&
        PinConfined(squares, c, turn, k, n, j, t)
    decreases n
  {
    if n > 0 {
      var i := n - 1;
      StripClosedFormUpTo(squares, c, turn, m0, n - 1, j, t);
      var st := StripUpTo(squares, c, turn, m0, n - 1);
      StripStepMembership(squares, c, turn, st, i, j, t);
      ConfinementsStep(squares, c, turn, m0, n, j, t);
      if Attacker(squares, turn, i) {
        StripLeavesOthersUpTo(squares, c, turn, m0, n - 1, i);
      }
    }
  }

  /** The resolver reports check after the first `n` squares exactly when
      one of those attackers' masks holds the king square. */
  lemma {:induction false} StripCheckStatusUpTo(squares: seq<Square>, c: CachedMasks, turn: Color, m0: seq<Mask>, n: int)
    requires Resolvable(squares, c, turn, m0) && 0 <= n <= 64
    ensures var k := KingSquare(c, turn);
      StripUpTo(squares, c, turn, m0, n).check ==
        if exists i :: 0 <= i < n && Attacker(squares, turn, i) && k in m0[i] then InCheck else NoCheck
    decreases n
  {
    if n > 0 {
      var i, k := n - 1, KingSquare(c, turn);
      StripCheckStatusUpTo(squares, c, turn, m0, n - 1);
      StripStepMembership(squares, c, turn, StripUpTo(squares, c, turn, m0, n - 1), i, 0, 0);
      if Attacker(squares, turn, i) {
        StripLeavesOthersUpTo(squares, c, turn, m0, n - 1, i);
      }
      assert (exists x :: 0 <= x < n && Attacker(squares, turn, x) && k in m0[x]) <==>
        (exists x :: 0 <= x < n - 1 && Attacker(squares, turn, x) && k in m0[x]) || (Attacker(squares, turn, i) && k in m0[i]);
    }
  }

  // ----------------------------------------------------------------------
  // Consequences for the whole loop

  /** ftk_strip_check in closed form: a destination survives in a mask
      exactly when it was there, the king's mask avoids every attack, a
      defender's mask meets every check, and a pinned piece stays on its pin
      line; check is reported exactly when an attacker's mask holds the king. */
  lemma StripClosedForm(squares: seq<Square>, c: CachedMasks, turn: Color, m0: seq<Mask>, j: int, t: int)
    requires Setting(squares, c, turn, m0) && 0 <= j < 64
    ensures var k, r := KingSquare(c, turn), Strip(squares, c, turn, m0);
      (t in r.masks[j] <==>
        t in m0[j] &&
        (j == k ==> KingSafe(squares, turn, m0, 64, t)) &&
        (Defender(squares, turn, j) ==> CheckConfined(squares, turn, k, m0, 64, t)) &&
        PinConfined(squares, c, turn, k, 64, j, t)) &&
      (r.check == InCheck <==> exists i :: Attacker(squares, turn, i) && k in m0[i]) &&
      (r.check == InCheck || r.check == NoCheck)
  {
    SettingIsResolvable(squares, c, turn, m0);
    StripClosedFormUpTo(squares, c, turn, m0, 64, j, t);
    StripCheckStatusUpTo(squares, c, turn, m0, 64);
  }

  /** The resolver only removes destinations. */
  lemma StripOnlyClears(squares: seq<Square>, c: CachedMasks, turn: Color, m0: seq<Mask>, j: int)
    requires Setting(squares, c, turn, m0) && 0 <= j < 64
    ensures Strip(squares, c, turn, m0).masks[j] <= m0[j]
  {
    forall t | t in Strip(squares, c, turn, m0).masks[j] ensures t in m0[j] {
      StripClosedForm(squares, c, turn, m0, j, t);
    }
  }

  /** The opponent's masks, the empty squares' masks and every mask but the
      king's and the defenders' come through unchanged. */
  lemma StripLeavesOthers(squares: seq<Square>, c: CachedMasks, turn: Color, m0: seq<Mask>, j: int)
    requires Setting(squares, c, turn, m0) && 0 <= j < 64
    requires j != KingSquare(c, turn) && !Defender(squares, turn, j)
    ensures Strip(squares, c, turn, m0).masks[j] == m0[j]
  {
    SettingIsResolvable(squares, c, turn, m0);
    StripLeavesOthersUpTo(squares, c, turn, m0, 64, j);
  }

  /** While in check, every defender may only capture a checking piece or
      step into the path between it and the king. */
  lemma CheckConfinesDefenders(squares: seq<Square>, c: CachedMasks, turn: Color, m0: seq<Mask>, i: int, j: int)
    requires Setting(squares, c, turn, m0) && 0 <= j < 64
    requires Defender(squares, turn, j) && Attacker(squares, turn, i) && KingSquare(c, turn) in m0[i]
    ensures Strip(squares, c, turn, m0).masks[j] <= CheckPath(squares, KingSquare(c, turn), m0, i)
  {
    forall t | t in Strip(squares, c, turn, m0).masks[j] ensures t in CheckPath(squares, KingSquare(c, turn), m0, i) {
      StripClosedForm(squares, c, turn, m0, j, t);
    }
  }

  /** A pinned piece may only move along the line of its pin or capture the
      pinning piece. */
  lemma PinConfines(squares: seq<Square>, c: CachedMasks, turn: Color, m0: seq<Mask>, i: int)
    requires Setting(squares, c, turn, m0) && Attacker(squares, turn, i)
    requires Pinned(squares, c, turn, KingSquare(c, turn), i) != XX
    ensures var p := Pinned(squares, c, turn, KingSquare(c, turn), i);
      Defender(squares, turn, p) &&
      Strip(squares, c, turn, m0).masks[p] <= ProbePath(squares, c, turn, KingSquare(c, turn), i) + {i}
  {
    var p := Pinned(squares, c, turn, KingSquare(c, turn), i);
    PinnedIsDefender(squares, c, turn, KingSquare(c, turn), i);
    forall t | t in Strip(squares, c, turn, m0).masks[p] ensures t in ProbePath(squares, c, turn, KingSquare(c, turn), i) + {i} {
      StripClosedForm(squares, c, turn, m0, p, t);
    }
  }

  /** Two pieces of the side to move in the probe path: neither is pinned. */
  lemma TwoBlockersPinNothing(squares: seq<Square>, c: CachedMasks, turn: Color, i: int, q1: int, q2: int)
    requires |squares| == 64 && 0 <= i < 64 && q1 != q2
    requires var cross := ProbePath(squares, c, turn, KingSquare(c, turn), i) * TurnMask(c, turn);
      IsBlocker(squares, cross, q1) && IsBlocker(squares, cross, q2)
    ensures Pinned(squares, c, turn, KingSquare(c, turn), i) == XX
  {
  }

  /** The king's mask keeps exactly the destinations that no opponent piece
      attacks. */
  lemma KingAvoidsAttacks(squares: seq<Square>, c: CachedMasks, turn: Color, m0: seq<Mask>, t: int)
    requires Setting(squares, c, turn, m0)
    requires squares[KingSquare(c, turn)].kind == King
    ensures var k := KingSquare(c, turn);
      t in Strip(squares, c, turn, m0).masks[k] <==>
        t in m0[k] && forall i :: Attacker(squares, turn, i) ==> t !in AttackMask(squares[i], m0[i], i)
  {
    var k := KingSquare(c, turn);
    StripClosedForm(squares, c, turn, m0, k, t);
    SettingIsResolvable(squares, c, turn, m0);
  }

  /** The pseudo-legal masks of every square (the second step of
      ftk_update_board_masks). */
  function PseudoMasks(squares: seq<Square>, c: CachedMasks, ep: int): (m: seq<Mask>)
    requires |squares| == 64
    ensures |m| == 64 && forall i :: 0 <= i < 64 ==> m[i] == MoveMask(squares, c, i, ep)
  {
    seq(64, i requires 0 <= i < 64 => MoveMask(squares, c, i, ep))
  }

  /** No opponent piece's pseudo-legal mask holds a square occupied by its
      own side, so a defended opponent piece that the king can reach stays
      in the king's mask: the king may capture a protected piece. */
  lemma KingMayCaptureDefended(squares: seq<Square>, c: CachedMasks, turn: Color, ep: int, t: int)
    requires |squares| == 64 && Setting(squares, c, turn, PseudoMasks(squares, c, ep))
    requires squares[KingSquare(c, turn)].kind == King
    requires Attacker(squares, turn, t) && t != ep
    requires t in PseudoMasks(squares, c, ep)[KingSquare(c, turn)]
    ensures t in Strip(squares, c, turn, PseudoMasks(squares, c, ep)).masks[KingSquare(c, turn)]
  {
    var m0 := PseudoMasks(squares, c, ep);
    BuildAllMembers(squares);
    forall i | Attacker(squares, turn, i) ensures t !in AttackMask(squares[i], m0[i], i) {
      assert squares[t].color == squares[i].color;
    }
    KingAvoidsAttacks(squares, c, turn, m0, t);
  }

  /** A pawn's pseudo-legal mask holds a diagonal only when an enemy piece
      or the en-passant square is there, so an empty square a pawn guards
      is not an attack: the king may step onto it. */
  lemma PawnGuardsOnlyOccupied(squares: seq<Square>, c: CachedMasks, ep: int, i: int, t: int)
    requires TidyBoard(squares) && c == BuildAll(squares) && 0 <= i < 64 && squares[i].kind == Pawn
    requires 0 <= t < 64 && squares[t].kind == Empty && t != ep
    ensures t !in AttackMask(squares[i], MoveMask(squares, c, i, ep), i)
  {
    var opp := if squares[i].color == White then c.black else c.white;
    BuildAllMembers(squares);
    assert t !in c.white + c.black;
    PawnGuardIsEmptyPush(squares[i], c.board, opp, i, ep, t);
  }

  /** A square off the board's occupied and capturable sets, other than the
      en-passant square, is in a pawn's mask only as a push. */
  lemma PawnGuardIsEmptyPush(s: Square, board: Mask, opp: Mask, i: int, ep: int, t: int)
    requires 0 <= i < 64 && s.kind == Pawn && t !in opp && t != ep
    ensures t !in AttackMask(s, RawMoves(s, board, opp, i, ep), i)
  {
    PawnMovesExact(s, board, opp, i, ep);
  }

  // ----------------------------------------------------------------------
  // ftk_add_castle

  /** The squares one castling move involves: the king's and the rook's
      home squares, the squares that must be empty, the squares no
      opponent mask may reach, and the king's destination. */
  datatype Wing = Wing(king: int, rook: int, between: Mask, guarded: Mask, target: int)

  function WingOf(turn: Color, kingSide: bool): (w: Wing)
    ensures w.king in w.guarded && w.target in w.between && w.target in w.guarded
    ensures OnBoard(w.between) && 0 <= w.rook < 64
  {
    if turn == White then
      if kingSide then Wing(E1, H1, {F1, G1}, {E1, F1, G1}, G1) else Wing(E1, A1, {B1, C1, D1}, {E1, C1, D1}, C1)
    else
      if kingSide then Wing(E8, H8, {F8, G8}, {E8, F8, G8}, G8) else Wing(E8, A8, {B8, C8, D8}, {E8, C8, D8}, C8)
  }

  /** The colour whose pieces castle, and the colour whose masks are
      searched for attacks: White against Black, anything else as Black
      against White. */
  function Castler(turn: Color): Color
  {
    if turn == White then White else Black
  }

  function Enemy(turn: Color): Color
  {
    if turn == White then Black else White
  }

  /** Whether ftk_add_castle lets the side to move castle on one wing:
      king and rook unmoved on their home squares, the squares between them
      empty, and no mask of an opposite-coloured square reaching the king's
      square or the two squares it crosses. */
  predicate CastleAllowed(squares: seq<Square>, c: CachedMasks, turn: Color, masks: seq<Mask>, kingSide: bool)
    requires |squares| == 64 && |masks| == 64
  {
    var w := WingOf(turn, kingSide);
    SquareIs(squares[w.king], King, Castler(turn), NotMoved) &&
    SquareIs(squares[w.rook], Rook, Castler(turn), NotMoved) &&
    w.between * (c.white + c.black) == {} &&
    forall i :: 0 <= i < 64 && squares[i].color == Enemy(turn) ==> masks[i] * w.guarded == {}
  }

  /** The masks after ftk_add_castle: the castling destinations allowed
      are added to the king's mask. */
  function AddCastle(squares: seq<Square>, c: CachedMasks, turn: Color, masks: seq<Mask>): (r: seq<Mask>)
    requires |squares| == 64 && |masks| == 64
    ensures |r| == 64
  {
    var k := WingOf(turn, true).king;
    var added := (if CastleAllowed(squares, c, turn, masks, true) then {WingOf(turn, true).target} else {}) +
                 (if CastleAllowed(squares, c, turn, masks, false) then {WingOf(turn, false).target} else {});
    masks[k := masks[k] + added]
  }

  /** Castling only adds destinations, only to the home square of the side
      to move's king, and only the two castling destinations. */
  lemma AddCastleOnlyAddsKingDestinations(squares: seq<Square>, c: CachedMasks, turn: Color, masks: seq<Mask>, j: int)
    requires |squares| == 64 && |masks| == 64 && 0 <= j < 64
    ensures var r, k := AddCastle(squares, c, turn, masks), WingOf(turn, true).king;
      masks[j] <= r[j] &&
      (j != k ==> r[j] == masks[j]) &&
      r[j] - masks[j] <= {WingOf(turn, true).target, WingOf(turn, false).target}
  {
  }

  /** Castling never changes the mask of a square that does not hold the
      castling side's king. */
  lemma AddCastleSparesOthers(squares: seq<Square>, c: CachedMasks, turn: Color, masks: seq<Mask>, j: int)
    requires |squares| == 64 && |masks| == 64 && 0 <= j < 64
    requires squares[j].kind != King || squares[j].color != Castler(turn)
    ensures AddCastle(squares, c, turn, masks)[j] == masks[j]
  {
    forall t
      ensures t in AddCastle(squares, c, turn, masks)[j] <==> t in masks[j]
    {
      AddCastleAt(squares, c, turn, masks, j, t);
    }
  }

  /** What ftk_add_castle puts in one square's mask, destination by
      destination. */
  lemma AddCastleAt(squares: seq<Square>, c: CachedMasks, turn: Color, masks: seq<Mask>, j: int, t: int)
    requires |squares| == 64 && |masks| == 64 && 0 <= j < 64
    ensures t in AddCastle(squares, c, turn, masks)[j] <==>
      t in masks[j] ||
      (j == WingOf(turn, true).king &&
        ((t == WingOf(turn, true).target && CastleAllowed(squares, c, turn, masks, true)) ||
         (t == WingOf(turn, false).target && CastleAllowed(squares, c, turn, masks, false))))
  {
    assert WingOf(turn, false).king == WingOf(turn, true).king;
  }

  /** A castling destination is granted exactly when the king and that
      rook are unmoved at home, the squares between them are empty, and no
      opposite-coloured square's mask reaches the king's square or the
      squares it crosses. */
  lemma CastleGranted(squares: seq<Square>, c: CachedMasks, turn: Color, masks: seq<Mask>, kingSide: bool)
    requires |squares| == 64 && |masks| == 64
    requires WingOf(turn, kingSide).target !in masks[WingOf(turn, kingSide).king]
    ensures var w := WingOf(turn, kingSide);
      w.target in AddCastle(squares, c, turn, masks)[w.king] <==>
        squares[w.king] == Square(King, Castler(turn), NotMoved) &&
        squares[w.rook] == Square(Rook, Castler(turn), NotMoved) &&
        (forall x :: x in w.between ==> x !in c.white && x !in c.black) &&
        (forall i, x :: 0 <= i < 64 && squares[i].color == Enemy(turn) && x in w.guarded ==> x !in masks[i])
  {
    var w := WingOf(turn, kingSide);
    assert w.target in AddCastle(squares, c, turn, masks)[w.king] <==> CastleAllowed(squares, c, turn, masks, kingSide) by {
      AddCastleAt(squares, c, turn, masks, w.king, w.target);
      assert WingOf(turn, !kingSide).target != w.target;
    }
    CastleAllowedPlain(squares, c, turn, masks, kingSide);
  }

  /** CastleAllowed with the square tests and mask intersections spelt out. */
  lemma CastleAllowedPlain(squares: seq<Square>, c: CachedMasks, turn: Color, masks: seq<Mask>, kingSide: bool)
    requires |squares| == 64 && |masks| == 64
    ensures var w := WingOf(turn, kingSide);
      CastleAllowed(squares, c, turn, masks, kingSide) <==>
        squares[w.king] == Square(King, Castler(turn), NotMoved) &&
        squares[w.rook] == Square(Rook, Castler(turn), NotMoved) &&
        (forall x :: x in w.between ==> x !in c.white && x !in c.black) &&
        (forall i, x :: 0 <= i < 64 && squares[i].color == Enemy(turn) && x in w.guarded ==> x !in masks[i])
  {
    var w := WingOf(turn, kingSide);
    SquareIsExact(squares[w.king], King, Castler(turn), NotMoved);
    SquareIsExact(squares[w.rook], Rook, Castler(turn), NotMoved);
    assert w.between * (c.white + c.black) == {} <==> forall x :: x in w.between ==> x !in c.white && x !in c.black by {
      if forall x :: x in w.between ==> x !in c.white && x !in c.black {
        forall x
          ensures x !in w.between * (c.white + c.black)
        {
        }
        assert w.between * (c.white + c.black) == {};
      }
      if w.between * (c.white + c.black) == {} {
        forall x | x in w.between
          ensures x !in c.white && x !in c.black
        {
          assert x !in w.between * (c.white + c.black);
        }
      }
    }
    assert (forall i :: 0 <= i < 64 && squares[i].color == Enemy(turn) ==> masks[i] * w.guarded == {}) <==>
      (forall i, x :: 0 <= i < 64 && squares[i].color == Enemy(turn) && x in w.guarded ==> x !in masks[i]) by {
      if forall i :: 0 <= i < 64 && squares[i].color == Enemy(turn) ==> masks[i] * w.guarded == {} {
        forall i, x | 0 <= i < 64 && squares[i].color == Enemy(turn) && x in w.guarded ensures x !in masks[i] {
          assert x !in masks[i] * w.guarded;
        }
      }
    }
  }

  // ----------------------------------------------------------------------
  // ftk_update_board_masks, as a function of the squares, ep and turn

  /** The resolver never adds a destination, whatever the position. */
  lemma {:induction false} StripClearsUpTo(squares: seq<Square>, c: CachedMasks, turn: Color, m0: seq<Mask>, n: int, j: int)
    requires |squares| == 64 && |m0| == 64 && 0 <= n <= 64 && 0 <= j < 64
    ensures StripUpTo(squares, c, turn, m0, n).masks[j] <= m0[j]
    decreases n
  {
    if n > 0 {
      StripClearsUpTo(squares, c, turn, m0, n - 1, j);
    }
  }

  /** Two squares two apart by index are never a king step apart. */
  lemma TwoApartNotAdjacent(s: int, t: int)
    requires 0 <= s < 64 && 0 <= t < 64 && (t - s == 2 || t - s == -2)
    ensures Dist(s, t) != 1
  {
    Coordinates(s, FileOf(s), RankOf(s));
    Coordinates(t, FileOf(t), RankOf(t));
  }

  /** The move masks the engine holds after a refresh. */
  function Refresh(squares: seq<Square>, ep: int, turn: Color): (r: seq<Mask>)
    requires |squares| == 64
    ensures |r| == 64
  {
    var c := BuildAll(squares);
    AddCastle(squares, c, turn, Strip(squares, c, turn, PseudoMasks(squares, c, ep)).masks)
  }

  /** Every destination of a refreshed mask is a pseudo-legal move of its
      piece, or a castling destination granted to the king on its home square. */
  lemma RefreshedMoveIsPseudo(squares: seq<Square>, ep: int, turn: Color, s: int, t: int)
    requires |squares| == 64 && 0 <= s < 64 && t in Refresh(squares, ep, turn)[s]
    ensures var c := BuildAll(squares);
      t in MoveMask(squares, c, s, ep) ||
      exists kingSide: bool ::
        s == WingOf(turn, kingSide).king && t == WingOf(turn, kingSide).target &&
        CastleAllowed(squares, c, turn, Strip(squares, c, turn, PseudoMasks(squares, c, ep)).masks, kingSide)
  {
    var c := BuildAll(squares);
    var m0 := PseudoMasks(squares, c, ep);
    var st := Strip(squares, c, turn, m0);
    assert t in AddCastle(squares, c, turn, st.masks)[s];
    AddCastleAt(squares, c, turn, st.masks, s, t);
    if t in st.masks[s] {
      StripClearsUpTo(squares, c, turn, m0, 64, s);
      assert t in MoveMask(squares, c, s, ep);
    } else if t == WingOf(turn, true).target && CastleAllowed(squares, c, turn, st.masks, true) {
      assert s == WingOf(turn, true).king;
    } else {
      assert s == WingOf(turn, false).king && t == WingOf(turn, false).target;
      assert CastleAllowed(squares, c, turn, st.masks, false);
    }
  }

  /** Only a king gains destinations from castling: every other piece's
      refreshed destinations are pseudo-legal moves. */
  lemma RefreshedNonKingIsPseudo(squares: seq<Square>, ep: int, turn: Color, s: int, t: int)
    requires |squares| == 64 && 0 <= s < 64 && squares[s].kind != King && t in Refresh(squares, ep, turn)[s]
    ensures t in MoveMask(squares, BuildAll(squares), s, ep)
  {
    var c := BuildAll(squares);
    var m0 := PseudoMasks(squares, c, ep);
    AddCastleSparesOthers(squares, c, turn, Strip(squares, c, turn, m0).masks, s);
    StripClearsUpTo(squares, c, turn, m0, 64, s);
  }

  /** A king whose refreshed mask holds a square two files away is the
      side to move's unmoved king on e1 or e8, castling with the unmoved
      rook three squares to its right or four to its left. */
  lemma KingLeapIsCastle(squares: seq<Square>, ep: int, turn: Color, s: int, t: int)
    requires |squares| == 64 && 0 <= s < 64 && t in Refresh(squares, ep, turn)[s]
    requires squares[s].kind == King && (t - s == 2 || t - s == -2)
    ensures s == WingOf(turn, true).king && (s == E1 || s == E8)
    ensures squares[s] == Square(King, Castler(turn), NotMoved)
    ensures t - s == 2 ==> t == WingOf(turn, true).target && squares[s + 3] == Square(Rook, Castler(turn), NotMoved)
    ensures t - s == -2 ==> t == WingOf(turn, false).target && squares[s - 4] == Square(Rook, Castler(turn), NotMoved)
    ensures t - s == 2 ==> squares[s + 1].kind == Empty && squares[s + 2].kind == Empty
    ensures t - s == -2 ==> squares[s - 1].kind == Empty && squares[s - 2].kind == Empty && squares[s - 3].kind == Empty
  {
    var c := BuildAll(squares);
    var masks := Strip(squares, c, turn, PseudoMasks(squares, c, ep)).masks;
    assert exists kingSide: bool ::
        s == WingOf(turn, kingSide).king && t == WingOf(turn, kingSide).target &&
        CastleAllowed(squares, c, turn, masks, kingSide) by {
      RefreshedMoveIsPseudo(squares, ep, turn, s, t);
      var opp := if squares[s].color == White then c.black else c.white;
      KingMoves(squares[s], c.board, opp, s, ep, t);
      TwoApartNotAdjacent(s, t);
    }
    var kingSide :| s == WingOf(turn, kingSide).king && t == WingOf(turn, kingSide).target &&
      CastleAllowed(squares, c, turn, masks, kingSide);
    CastleLeap(squares, c, turn, masks, kingSide, s, t);
  }

  /** A granted castle, in terms of the king's square and its destination. */
  lemma CastleLeap(squares: seq<Square>, c: CachedMasks, turn: Color, masks: seq<Mask>, kingSide: bool, s: int, t: int)
    requires |squares| == 64 && |masks| == 64 && c == BuildAll(squares)
    requires CastleAllowed(squares, c, turn, masks, kingSide)
    requires s == WingOf(turn, kingSide).king && t == WingOf(turn, kingSide).target
    ensures s == WingOf(turn, true).king && (s == E1 || s == E8)
    ensures squares[s] == Square(King, Castler(turn), NotMoved)
    ensures t - s == 2 ==> t == WingOf(turn, true).target && squares[s + 3] == Square(Rook, Castler(turn), NotMoved)
    ensures t - s == -2 ==> t == WingOf(turn, false).target && squares[s - 4] == Square(Rook, Castler(turn), NotMoved)
    ensures t - s == 2 ==> squares[s + 1].kind == Empty && squares[s + 2].kind == Empty
    ensures t - s == -2 ==> squares[s - 1].kind == Empty && squares[s - 2].kind == Empty && squares[s - 3].kind == Empty
  {
    CastleAllowedFacts(squares, c, turn, masks, kingSide);
    var w := WingOf(turn, kingSide);
    assert kingSide <==> t - s == 2;
    assert kingSide ==> w.rook == s + 3 && s + 1 in w.between && s + 2 in w.between;
    assert !kingSide ==> w.rook == s - 4 && s - 1 in w.between && s - 2 in w.between && s - 3 in w.between;
  }

  /** What a granted castle says about the squares, in plain terms. */
  lemma CastleAllowedFacts(squares: seq<Square>, c: CachedMasks, turn: Color, masks: seq<Mask>, kingSide: bool)
    requires |squares| == 64 && |masks| == 64 && c == BuildAll(squares)
    requires CastleAllowed(squares, c, turn, masks, kingSide)
    ensures var w := WingOf(turn, kingSide);
      squares[w.king] == Square(King, Castler(turn), NotMoved) &&
      squares[w.rook] == Square(Rook, Castler(turn), NotMoved) &&
      forall x :: x in w.between ==> squares[x].kind == Empty
  {
    var w := WingOf(turn, kingSide);
    SquareIsExact(squares[w.king], King, Castler(turn), NotMoved);
    SquareIsExact(squares[w.rook], Rook, Castler(turn), NotMoved);
    forall x | x in w.between ensures squares[x].kind == Empty {
      assert x !in c.white + c.black;
      if squares[x].kind != Empty {
        OccupiedIsColored(squares, x);
      }
    }
  }

  /** A slider's ray stops at the first piece it meets, the enemy king
      included, so the squares behind the king on that line are not
      attacked by it: the king may step back along a checking line. */
  lemma SliderStopsAtKing(s: Square, board: Mask, opp: Mask, i: int, ep: int, k: int, t: int, d: Direction)
    requires 0 <= i < 64 && 0 <= k < 64 && IsSlider(s.kind) && s.kind != King && IsDirection(d)
    requires k in board && OnRay(i, k, d) && OnRay(i, t, d) && Dist(i, k) < Dist(i, t)
    ensures t !in RawMoves(s, board, opp, i, ep)
  {
    OnRayDirection(i, t, d);
    OnRayDirection(i, k, d);
    if s.kind == Bishop {
      BishopMoves(s, board, opp, i, ep, t);
    } else if s.kind == Rook {
      RookMoves(s, board, opp, i, ep, t);
    } else {
      QueenMoves(s, board, opp, i, ep, t);
    }
  }
}
