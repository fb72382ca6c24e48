# farewell-to-king in Dafny

A model of the core of Farewell To King, a C chess library for engines that
speak the xboard protocol, together with proofs about it. The modelled core
has four parts:

- **Board masks** (`farewell_to_king_mask.c`). A board mask has one bit per
  square; it is modelled as a set of square numbers 0..63. This part covers:
  - the type, colour and board mask builders;
  - the single-pass builder of the nine cached masks;
  - the pseudo-legal move generator for every piece type;
  - the path between an attacker and the king;
  - the check and pin resolver, `ftk_strip_check`;
  - the castling step, `ftk_add_castle`.
- **The game** (`farewell_to_king.c`). A `Game` class holds:
  - the 64 squares and the 64 move masks, as arrays updated in place;
  - the cached masks, the en-passant square and the side to move;
  - the two 16-bit move counters.

  Its methods model starting a game, refreshing the masks, moving, replaying
  and taking back a move, and the check, legal-move and game-end queries.
- **Types and macros** (`farewell_to_king_types.h`): square records, the
  castle bits, `FTK_SQUARE_EQUAL`, `FTK_SQUARE_IS` and
  `FTK_MASK_TO_POSITION`.
- **Text** (`farewell_to_king_strings.c`):
  - the bounded string-index step;
  - square names, piece letters and long-algebraic/xboard move text;
  - the FEN (Forsyth-Edwards Notation, section 16.1 of the PGN Standard)
    writer and reader.

Each in-place operation is a method proved against a value-level definition:
- `BuildAll` for the cached masks;
- `PseudoMasks` and `Strip` for the move masks and the resolver;
- `AddCastle` for castling;
- `Play` and `Undo` for moving;
- `FenText` and `ReadFen` for the FEN text.

Lemmas then state what those definitions mean:
- each piece's moves in geometric terms;
- the resolver's closed form, including check confinement, pins and king
  safety;
- when castling is granted;
- the take-back and replay round trips;
- soundness of positions after a move;
- the game-end verdicts in terms of accepted moves;
- the FEN round trip.

Modules:

| file | module | models |
|---|---|---|
| types.dfy | Types | types.h: squares, enumerations, castle bits, counters, C division, `FTK_MASK_TO_POSITION` |
| masks.dfy | Masks | mask.c: builders, raw moves, path masks, and their geometry |
| legality.dfy | Legality | mask.c: `ftk_strip_check` and `ftk_add_castle` as functions, and their properties |
| moves.dfy | Moves | farewell_to_king.c: moving, taking back, the starting position, the game-end queries on values |
| engine.dfy | Engine | the `Game` class: every in-place operation of farewell_to_king.c and mask.c |
| notation.dfy | Notation | strings.c: string index, square names, piece letters, move text |
| fen.dfy | Fen | strings.c: the FEN text, the reader as a scan, and the round trip |
| fen_game.dfy | FenGame | strings.c: the FEN writer and reader working on a buffer and on the game |

Two behaviours of the source are stated as they are, not corrected:

- **The pawn capture generator has no file test.** A pawn on the h-file
  "captures" across the board edge (`Masks.PawnDiagonalWraps`).
- **The path builder tests the step size in the order 9, 7, 8, 1.** A rank
  whose length is a multiple of 7 therefore takes the wrong step:
  - a1 to h1 gives the path {h1} (`Masks.PathAcrossRankSkipsBetween`);
  - a1 to a8 gives a zigzag (`Masks.PathUpFileZigzags`).

  `Masks.SliderPathAlongLine` states the cases where the path is the true
  line.

Several lemmas about moving hold for sound positions (`Moves.Sound`), which have:
- well-formed squares;
- White or Black to move;
- 16-bit counters;
- an en-passant square that is XX, or an empty square on ranks 2 to 7 whose captured-pawn square holds no piece of the side to move.

The standard start is sound (`Moves.StandardStartIsSound`), and every accepted move keeps a position sound (`Moves.ApplyKeepsSound`).

## Model

| member | source | states |
|---|---|---|
| Types.SquareEqualIsEquality | include/farewell_to_king_types.h:182-185 | FTK_SQUARE_EQUAL holds exactly when the two squares agree in type, colour and moved status |
| Types.SquareIsExact | include/farewell_to_king_types.h:190-193 | with no don't-care argument, FTK_SQUARE_IS holds exactly when the square is that type, colour and status |
| Types.SquareIsDontCare | include/farewell_to_king_types.h:190-193 | with every argument DONT_CARE any square matches, and with only the type given, each square matches its own type |
| Types.CastleFlagsAreDistinctBits | include/farewell_to_king_types.h:93-101 | the four castle flags are pairwise disjoint bits whose union is FTK_CASTLE_ALL |
| Types.Increment16 | include/farewell_to_king_types.h:199 | `++` on a 16-bit move counter adds one, except at 65535, which wraps to 0 |
| Types.MaskToPosition | include/farewell_to_king_types.h:54 | the shift loop yields the highest square in the mask, and 0 for an empty mask |
| Masks.BuildTypeMask | src/farewell_to_king_mask.c:13-28 | the mask holds exactly the squares whose type is the requested type |
| Masks.BuildColorMask | src/farewell_to_king_mask.c:30-45 | the mask holds exactly the squares whose colour field is the requested colour |
| Masks.BuildBoardMask | src/farewell_to_king_mask.c:47-60 | the mask holds exactly the occupied squares |
| Masks.BuildAllMembers | src/farewell_to_king_mask.c:62-114 | each of the nine cached masks holds exactly the squares it describes; an occupied square that is not white goes to the black mask |
| Masks.ColorMasksPartition | src/farewell_to_king_mask.c:76-111 | the white and black masks are disjoint and together make up the board mask |
| Masks.TypeMaskMembership | src/farewell_to_king_mask.c:89-110 | a square is in a type's mask exactly when it holds that type of piece; no mask exists for EMPTY or DONT_CARE |
| Masks.TypeMasksCover | src/farewell_to_king_mask.c:89-110 | without DONT_CARE pieces the six type masks cover the board mask |
| Masks.TypeMasksDisjoint | src/farewell_to_king_mask.c:89-110 | two different type masks share no square, and each lies within the board mask |
| Masks.BuildAllAgreesWithBuilders | src/farewell_to_king_mask.c:13-114 | on a board of well-formed squares the single pass gives the same board, white and black masks as the three single builders |
| Engine.Game.BuildAllMasks | src/farewell_to_king_mask.c:62-114 | the in-place pass leaves the cached masks equal to those of the current squares |
| Masks.RawMoves | src/farewell_to_king_mask.c:116-301 | destinations are on the board and never the piece's own square, and each is empty or capturable (or the ep square, for a pawn); EMPTY and DONT_CARE have no moves |
| Masks.PawnMovesExact | src/farewell_to_king_mask.c:120-149 | a pawn moves one square forward if it is empty, two if the first is allowed, it has not moved and the second is empty, and diagonally onto an opponent or the ep square; nothing else |
| Masks.PawnMovesGeometry | src/farewell_to_king_mask.c:120-149 | pushes stay on the pawn's file one or two ranks forward; a diagonal goes one rank forward to an adjacent file, except from an edge file, where the square arithmetic wraps seven files across |
| Masks.PawnDiagonalWraps | src/farewell_to_king_mask.c:138-147 | with no file test, a white pawn on h2 reaches an opponent on a4, across the board edge |
| Masks.LeapExact | src/farewell_to_king_mask.c:153-158 | one knight leap with its file test adds exactly the landable square the given files and ranks away, if it exists |
| Masks.KnightMovesExact | src/farewell_to_king_mask.c:150-201 | a knight reaches exactly the L-shaped squares it may land on; the file tests stop every wrap-around |
| Masks.RayMoves | src/farewell_to_king_mask.c:209-219 | one ray walk adds exactly the squares along the ray up to and including the first occupied one, or only the first for a king |
| Masks.SliderRays | src/farewell_to_king_mask.c:207-297 | the same, for each of the eight ray walks with their starting squares and guards |
| Masks.BishopMoves | src/farewell_to_king_mask.c:207-253 | a bishop reaches exactly the diagonal squares it may land on with nothing in between |
| Masks.RookMoves | src/farewell_to_king_mask.c:254-297 | a rook reaches exactly the squares on its rank or file it may land on with nothing in between |
| Masks.QueenMoves | src/farewell_to_king_mask.c:202-298 | a queen moves exactly as a bishop or a rook |
| Masks.KingMoves | src/farewell_to_king_mask.c:202-298 | a king reaches exactly the neighbouring squares it may land on (castling is added later) |
| Masks.PathMask | src/farewell_to_king_mask.c:310-389 | the path is empty unless the moves hold the target, lies on the board, never holds the source, and holds the target for every piece type |
| Masks.PathMaskShape | src/farewell_to_king_mask.c:310-389 | knights and kings: the target alone; pawns: the target plus the skipped square of a double step; sliders: every square from the target towards the source, stepped by the first of 9, 7, 8, 1 that divides the distance |
| Masks.PathAcrossRankSkipsBetween | src/farewell_to_king_mask.c:344-361 | a rook on a1 attacking h1 (distance 7) gets the step-7 branch, so its path is h1 alone and b1..g1 are left out |
| Masks.PathUpFileZigzags | src/farewell_to_king_mask.c:344-361 | a rook on a1 attacking a8 (distance 56) gets the step-7 branch, a zigzag of squares off the a-file |
| Masks.SliderPathAlongLine | src/farewell_to_king_mask.c:340-380 | on a diagonal, or a straight line shorter than 7, the path is the target plus exactly the squares between the attacker and the target on that line |
| Legality.TurnMaskHoldsTurn | src/farewell_to_king_mask.c:399-400 | the side-to-move mask holds exactly the occupied squares of that colour |
| Legality.AttackMask | src/farewell_to_king_mask.c:411-446 | what an opponent piece takes from the king's mask lies within its moves, and is all of them unless it is a pawn |
| Engine.Game.AttackOf | src/farewell_to_king_mask.c:411-437 | the in-place removal of a pawn's forward squares yields that attack mask |
| Legality.PawnGuardsOnlyOccupied | src/farewell_to_king_mask.c:411-437 | an empty square a pawn could only push to, which is not the ep square, is not attacked by it |
| Legality.ScanBlocker | src/farewell_to_king_mask.c:479-493 | the scan returns the only non-king piece in the cross mask, or XX when there is none or more than one |
| Engine.Game.FindBlocker | src/farewell_to_king_mask.c:474-493 | the in-place scan returns the sole blocker: the one non-king piece of the cross mask, or XX |
| Engine.Game.ConfineDefenders | src/farewell_to_king_mask.c:456-464 | every non-king piece of the side to move has its mask cut to the allowed squares, and every other mask is kept |
| Engine.Game.CheckBy | src/farewell_to_king_mask.c:411-465 | one attacker's attacks leave the king's mask; if it reaches the king, the status becomes check and the defenders are confined to its path and square |
| Engine.Game.PinBy | src/farewell_to_king_mask.c:466-499 | the probe with the side to move's pieces removed finds the sole blocker, which is confined to the pin line and the attacker's square |
| Engine.Game.ResolveAttacker | src/farewell_to_king_mask.c:406-501 | one pass of the resolver loop changes the masks and status as the value-level step does, and does nothing for squares not held by the opponent |
| Engine.Game.StripCheck | src/farewell_to_king_mask.c:391-504 | the in-place resolver ends with the masks and the check status of the value-level resolver |
| Legality.StripCheckStatusUpTo | src/farewell_to_king_mask.c:406-465 | after the first n squares the status is check exactly when one of those attackers' masks holds the king square |
| Legality.StripClosedForm | src/farewell_to_king_mask.c:391-504 | a destination survives exactly when it was pseudo-legal, is unattacked if the piece is the king, answers every check if the piece is a defender, and keeps to every pin line; check is reported exactly when an attacker reaches the king |
| Legality.StripOnlyClears | src/farewell_to_king_mask.c:391-504 | the resolver only removes destinations |
| Legality.StripLeavesOthers | src/farewell_to_king_mask.c:391-504 | the masks of the opponent and of empty squares come through unchanged; only the king and the defenders are cut |
| Legality.CheckConfinesDefenders | src/farewell_to_king_mask.c:449-465 | in check, each defender may only capture a checking piece or enter its path to the king |
| Legality.PinnedIsDefender | src/farewell_to_king_mask.c:474-493 | a pinned piece is a non-king piece of the side to move standing in the probe path |
| Legality.PinConfines | src/farewell_to_king_mask.c:466-499 | a pinned piece may only move along the pin line or capture the pinning piece |
| Legality.TwoBlockersPinNothing | src/farewell_to_king_mask.c:479-493 | with two pieces of the side to move in the probe path, nothing is pinned |
| Legality.KingAvoidsAttacks | src/farewell_to_king_mask.c:411-446 | the king keeps exactly the destinations that no opponent piece attacks |
| Legality.KingMayCaptureDefended | src/farewell_to_king_mask.c:439-446 | an opponent piece beside the king stays capturable even when defended: a piece's own mask never holds squares its own side occupies |
| Legality.SliderStopsAtKing | src/farewell_to_king_mask.c:209-219 | a slider's ray stops at the king, so the square behind the king is not attacked and the king may step back along a checking line |
| Engine.Game.BuildMoveMasks | src/farewell_to_king.c:29-35 | the loop fills every square's mask with its pseudo-legal moves, the opponent being black for a white piece and white otherwise |
| Legality.CastleAllowedPlain | src/farewell_to_king_mask.c:514-613 | a wing is allowed exactly when king and rook are unmoved on their home squares, the squares between are empty, and no opposing mask holds the king's square or the two it crosses |
| Legality.CastleGranted | src/farewell_to_king_mask.c:506-632 | the castling destination is in the king's mask afterwards exactly when that wing is allowed |
| Legality.AddCastleOnlyAddsKingDestinations | src/farewell_to_king_mask.c:615-631 | castling only adds destinations, only to the king's home square, and only the two castling targets |
| Legality.AddCastleSparesOthers | src/farewell_to_king_mask.c:615-631 | no mask of a square without the castling side's king changes |
| Engine.Game.WhiteScan | src/farewell_to_king_mask.c:540-562 | one black square's mask clears the white king-side right if it reaches e1, f1 or g1, and the queen-side right if it reaches e1, c1 or d1 |
| Engine.Game.BlackScan | src/farewell_to_king_mask.c:591-613 | one white square's mask clears the black king-side right if it reaches e8, f8 or g8, and the queen-side right if it reaches e8, c8 or d8 |
| Engine.Game.WhiteCastleRights | src/farewell_to_king_mask.c:514-563 | for White to move, each white castle bit is set exactly when its wing is allowed; the black bits are clear |
| Engine.Game.BlackCastleRights | src/farewell_to_king_mask.c:564-614 | for any other side to move, each black castle bit is set exactly when its wing is allowed; the white bits are clear |
| Engine.Game.CastleRights | src/farewell_to_king_mask.c:506-614 | each castle bit is set exactly when it belongs to the side to move and that wing is allowed |
| Engine.Game.AddCastle | src/farewell_to_king_mask.c:615-632 | the move masks become those of the value-level castling step; the squares do not change |
| Engine.Game.Resolve | src/farewell_to_king.c:25-37 | the cached masks are rebuilt, and the move masks are the pseudo-legal masks after check and pin resolution |
| Engine.Game.UpdateBoardMasks | src/farewell_to_king.c:25-40 | afterwards the cached and move masks are those of the current position, and the position is unchanged |
| Legality.RefreshedMoveIsPseudo | src/farewell_to_king.c:25-40 | every destination of a refreshed mask is a pseudo-legal move of its piece, or a castling target granted to the king on its home square |
| Legality.KingLeapIsCastle | src/farewell_to_king.c:124-144 | a king move of two files in a refreshed mask is a castle: the king is unmoved on e1 or e8, the rook unmoved three or four files away, and the squares between are empty |
| Moves.SoleKingIsKingSquare | src/farewell_to_king_mask.c:404 | with one king of the side to move, the resolver's king square is that king |
| Moves.StandardStartIsSound | src/farewell_to_king.c:13-24 | the starting position is well formed (squares, side to move, ep square, counters), with both kings and the a1 and h8 rooks unmoved on their home squares and ranks 3 to 6 empty |
| Engine.Game.BeginStandardGame | src/farewell_to_king.c:13-24 | the game holds the standard start, White to move, no ep square, counters 0 and 1, with the masks refreshed |
| Moves.PromotionKind | src/farewell_to_king.c:106-116 | a promoting pawn becomes a knight, bishop, rook or queen: the requested type when it is one of these, a queen otherwise |
| Moves.Play | src/farewell_to_king.c:41-168 | a move not in the source's mask, or by the wrong side, leaves the position unchanged with the refused record; an accepted move's record names its squares and the moved piece |
| Moves.ApplyMovesPiece | src/farewell_to_king.c:103-148 | from a sound position, the mover lands on the target, marked as moved and promoted if a pawn reaches the last rank; the source is empty; untouched squares keep their pieces |
| Moves.ApplyCaptures | src/farewell_to_king.c:74-144 | from a sound position, en passant clears and records the pawn behind the ep square; castling moves the rook beside the king and records it; otherwise the target's piece is recorded |
| Moves.ApplyBookkeeping | src/farewell_to_king.c:55-122 | from a sound position, the turn passes; the full-move counter rises after Black; the half-move counter resets on a capture or pawn move (or at wrap-around) and rises otherwise; only a double step sets ep, to the square passed over; the record keeps the old values |
| Moves.DoubleStep | src/farewell_to_king.c:90-101 | in a sound position, the truncated division by 8 is 2 or -2 only for a pawn's double step, whose passed-over square is empty |
| Moves.PawnDoubleStep | src/farewell_to_king_mask.c:125-136 | a pawn's pseudo-legal two-rank move is forward for its colour, with the square passed over empty |
| Moves.ApplyKeepsSound | src/farewell_to_king.c:41-168 | an accepted move from a sound position leads to a sound position |
| Moves.PromotionReplays | src/farewell_to_king.c:103-118 | requesting the recorded promotion again gives the same result |
| Moves.UndoPlay | src/farewell_to_king.c:187-242 | from a sound position, taking back an accepted move with its record restores every square, the ep square, the side to move and both counters |
| Moves.RedoAfterUndo | src/farewell_to_king.c:170-185 | from a sound position, replaying a taken-back move from its record gives the same position and record again |
| Engine.Game.Prepare | src/farewell_to_king.c:49-122 | the in-place first stage: record, counters, ep square, en-passant capture and promotion as the value-level move has them |
| Engine.Game.Land | src/farewell_to_king.c:124-149 | the in-place second stage: a castling rook moves, the mover lands, the turn passes, and the record keeps the rook |
| Engine.Game.CarryOut | src/farewell_to_king.c:43-149 | the in-place move body leaves the position and record of the value-level move |
| Engine.Game.PlayAccepted | src/farewell_to_king.c:47-151 | an accepted move leaves the value-level result with the masks refreshed |
| Engine.Game.MovePiece | src/farewell_to_king.c:41-168 | the game becomes the position of the value-level move and returns its record; the masks stay current |
| Engine.Game.MoveForward | src/farewell_to_king.c:170-185 | a record without squares fails and changes nothing; otherwise the move is played, with Success exactly when it was accepted |
| Engine.Game.TakeBack | src/farewell_to_king.c:194-237 | the in-place restore leaves the value-level taken-back position |
| Engine.Game.MoveBackward | src/farewell_to_king.c:187-242 | a record with both squares XX fails and changes nothing; any other is restored with Success and refreshed masks |
| Engine.Game.CheckForCheck | src/farewell_to_king.c:244-260 | check is reported exactly when some move mask holds a king of the side to move |
| Engine.Game.CheckLegalMoves | src/farewell_to_king.c:262-277 | the answer is true exactly when some square of the side to move has a non-empty mask |
| Moves.Outcome | src/farewell_to_king.c:279-292 | checkmate when attacked and stuck, stalemate when not attacked and stuck, the fifty-move draw only when a move exists and the half-move count passes 100, otherwise not over |
| Engine.Game.CheckForGameEnd | src/farewell_to_king.c:279-292 | the verdict is the outcome of the check and legal-move answers and the half-move count |
| Moves.CanMoveIffSomeMoveAccepted | src/farewell_to_king.c:262-277 | the side to move has a non-empty mask exactly when the move function accepts some move |
| Moves.KingAttackedIffResolverCheck | src/farewell_to_king.c:244-260 | in a sound position with one king of the side to move, the check query agrees with the resolver's status |
| Moves.AttackerAttacks | src/farewell_to_king.c:244-260 | in a sound position with one king of the side to move, an attacker whose pseudo-legal mask reaches the king keeps it after the refresh |
| Moves.AttackedByAttacker | src/farewell_to_king.c:244-260 | in a sound position with one king of the side to move, a refreshed mask reaching the king belongs to an attacker whose pseudo-legal mask reaches it |
| Moves.StripCheckIff | src/farewell_to_king_mask.c:449-453 | in a sound position with one king of the side to move, the resolver reports check exactly when an attacker's pseudo-legal mask reaches the king |
| Moves.OutcomeOfPosition | src/farewell_to_king.c:279-292 | in a sound position with one king of the side to move, checkmate exactly when in check and no move is accepted, stalemate when not in check and none is, and the fifty-move draw or not-over when some move is accepted |
| Notation.Advance | src/farewell_to_king_strings.c:17-36 | advancing succeeds exactly when no NUL lies in the way; otherwise it stops on the first NUL |
| Notation.IncrementStringIndex | src/farewell_to_king_strings.c:17-36 | the loop returns the success flag and index of that bounded advance |
| Notation.StringToPosition | src/farewell_to_king_strings.c:38-51 | a file letter in either case and a rank digit name the square with that file and rank; anything else is XX |
| Notation.StringToPositionReadsTwo | src/farewell_to_king_strings.c:38-51 | only the first two characters decide the square |
| Notation.PositionToString | src/farewell_to_king_strings.c:52-63 | three characters are written at the given index: a lower-case file letter, a rank digit and NUL, or "XX" and NUL off the board; the rest of the buffer is kept |
| Notation.CoordinateRoundTrip | src/farewell_to_king_strings.c:38-63 | reading a written square name gives the square back, or XX for anything off the board |
| Notation.PositionRoundTrip | src/farewell_to_king_strings.c:38-63 | writing a parsed square gives the text back, with the file letter in lower case |
| Notation.CharToPieceType | src/farewell_to_king_strings.c:65-95 | the letters P, N, B, R, Q and K in either case name a piece type; every other character is EMPTY |
| Notation.PieceLettersIgnoreCase | src/farewell_to_king_strings.c:65-95 | piece letters are read without regard to case |
| Notation.CharToSquare | src/farewell_to_king_strings.c:97-108 | a piece letter gives that type, white for upper case and black for lower case, with INVALID moved status; anything else a cleared square |
| Notation.SquareToChar | src/farewell_to_king_strings.c:116-140 | a piece's letter is upper case exactly for white; 'X' exactly for a square without a piece type |
| Notation.TypeToChar | src/farewell_to_king_strings.c:148-172 | a piece type's letter is lower case; 'X' exactly for EMPTY and DONT_CARE |
| Notation.TypeLetterRoundTrip | src/farewell_to_king_strings.c:65-172 | a type written and read back is the same type, and a letter read and written back is that letter in lower case |
| Notation.LetterSquareRoundTrip | src/farewell_to_king_strings.c:97-140 | a piece letter read as a square and written back is the same letter |
| Notation.SquareLetterRoundTrip | src/farewell_to_king_strings.c:97-140 | a white or black piece written and read back keeps its type and colour, with INVALID status |
| Notation.ParseMove | src/farewell_to_king_strings.c:174-216 | the parse fails exactly when the text does not start with 'O' and is shorter than 4 characters, so text of 4 or more characters is read as a move; only text starting with 'O' is a castle; a castle or failure leaves the caller's squares as they were; otherwise both squares are on the board or XX; a promotion is read only from 5-character text |
| Notation.LongAlgebraicMove | src/farewell_to_king_strings.c:174-223 | the length-counting procedure gives exactly that parse; the xboard entry point forwards to it |
| Notation.XboardText | src/farewell_to_king_strings.c:614-633 | six characters, NUL-terminated after the coordinates, or after the promotion letter when there is one |
| Notation.MoveToXboardString | src/farewell_to_king_strings.c:614-633 | the first six characters of the buffer become that text, the rest stays as it was, and the result is Success |
| Notation.XboardRoundTrip | src/farewell_to_king_strings.c:614-633 | parsing the move text gives back its squares (XX off the board) and its promotion (EMPTY for none) |
| Notation.ParsedMoveRewrites | src/farewell_to_king_strings.c:174-216 | writing a parsed coordinate move and parsing it again reproduces the parse |
| Fen.DecimalDigits | src/farewell_to_king_strings.c:448-466 | digit i of a number's text is the writer's quotient by the matching power of ten, modulo 10 |
| Fen.DecimalValue | src/farewell_to_king_strings.c:586-590 | accumulating the digits of a number's decimal text gives the number |
| Fen.NumberRead | src/farewell_to_king_strings.c:586-590 | the counter loop reads a written number back and stops on the space after it |
| Fen.RowRead | src/farewell_to_king_strings.c:505-532 | reading the text of a rank sets that rank's squares to the written pieces and stops at the rank's terminator |
| Fen.BoardRead | src/farewell_to_king_strings.c:504-534 | reading the placement field rebuilds every piece, with only the pawns on their starting rank unmoved |
| Fen.LettersRecover | src/farewell_to_king_strings.c:543-570 | the castling letters mark the king and rook home squares they name as unmoved, giving the recovered board |
| Fen.FenLayout | src/farewell_to_king_strings.c:355-490 | the written text is the placement, turn, castling, ep, half-move and full-move fields, each followed by a space |
| Fen.FieldsRead | src/farewell_to_king_strings.c:536-600 | the reader's phases, run over those fields, give back side to move, castling, ep square and counters |
| Fen.FenRoundTrip | src/farewell_to_king_strings.c:492-605 | reading the written FEN of a well-formed position succeeds and gives the same pieces, ep square, side to move and counters; a piece comes back unmoved only if it is a pawn on its starting rank or a king or rook home square named by a castling letter |
| FenGame.ZeroBuffer | src/farewell_to_king_strings.c:357 | the buffer is zeroed |
| FenGame.WriteRank | src/farewell_to_king_strings.c:361-379 | the loop over one rank appends that rank's run-length text |
| FenGame.WriteBlock | src/farewell_to_king_strings.c:361-383 | a rank's text is appended, followed by '/' on every rank but the first |
| FenGame.WritePlacement | src/farewell_to_king_strings.c:360-384 | the placement field of ranks 8 down to 1 is written |
| FenGame.WriteTurn | src/farewell_to_king_strings.c:387-393 | 'w' for White to move, 'b' otherwise |
| FenGame.WriteCastling | src/farewell_to_king_strings.c:396-432 | the castling letters K, Q, k, q that the unmoved king and rook pairs allow, or '-' when there are none |
| FenGame.WriteEp | src/farewell_to_king_strings.c:435-445 | the two characters of the ep square's name, or '-' |
| FenGame.WriteNumber | src/farewell_to_king_strings.c:448-466 | the counting loop and the digit loop append the number's decimal text, "0" for zero |
| FenGame.WriteCounters | src/farewell_to_king_strings.c:446-489 | both counters are appended, each followed by a space |
| FenGame.GameToFenString | src/farewell_to_king_strings.c:355-490 | the buffer holds the FEN text of the game, with zeros after it |
| FenGame.ClearBoard | src/farewell_to_king_strings.c:502 | every square is cleared |
| FenGame.ReadRowInto | src/farewell_to_king_strings.c:505-532 | the in-place row loop ends as the row scan does, including a stop at the NUL |
| FenGame.ReadBoardInto | src/farewell_to_king_strings.c:504-534 | the in-place placement loop ends as the placement scan does |
| FenGame.ReadTurnInto | src/farewell_to_king_strings.c:536-541 | 'w' gives White to move, anything else Black, then the index moves two characters on |
| FenGame.ReadCastleInto | src/farewell_to_king_strings.c:547-569 | the in-place letter loop ends as the castling scan does |
| FenGame.ReadCastlingInto | src/farewell_to_king_strings.c:543-571 | '-' or the letters, then one character on, as the castling phase |
| FenGame.ReadEpInto | src/farewell_to_king_strings.c:573-585 | two characters read as a square name, or '-', then one character on, as the ep phase |
| FenGame.ReadCountFrom | src/farewell_to_king_strings.c:586-590 | the digit loop accumulates the decimal value left to right and stops at the first non-digit or NUL |
| FenGame.ReadHalfmoveInto | src/farewell_to_king_strings.c:586-593 | the half-move counter becomes the number read, kept to 16 bits |
| FenGame.ReadFullmoveInto | src/farewell_to_king_strings.c:595-600 | the full-move counter becomes the number read, kept to 16 bits |
| FenGame.ReadFieldsInto | src/farewell_to_king_strings.c:536-600 | the in-place reading of the five fields after the placement ends as the chained phases do |
| FenGame.CreateGameFromFen | src/farewell_to_king_strings.c:492-605 | Success exactly when the scan reaches the end without stepping past the NUL; the game holds what was read, with the masks refreshed on Success |

## Left out

- The pretty-printers `ftk_mask_to_string`, `ftk_board_to_string` and their coordinate variants (src/farewell_to_king_strings.c:225-354) only format text for display.
- `ftk_set_standard_board` and `ftk_clear_board` are not part of this model. The standard start is written out from the FIDE Laws of Chess, all unmoved, and the cleared board as 64 cleared squares.
- `FarewellToKing.c`, `flyByKnightLib.c` and the test program are older or driver code outside the library core.
- The game-end values other than not over, checkmate, stalemate and the fifty-move draw (resignation, time, agreement, repetition, dead position) are declared but never produced by the library.
- Moves.Play: for an accepted pawn move onto the en-passant square, requires the captured pawn's square (the ep square less 8 for White, plus 8 for Black) to be on the board. Without this the source reads and clears a square outside the board, which C leaves undefined. Every other move, with any en-passant square, is modelled.
- A position read from a FEN text need not be sound, and then the take-back round trip fails. For example, an en-passant field naming an occupied square lets a pawn capture onto that square "en passant": the source clears the empty square behind it and records that empty square. Taking the move back then leaves the en-passant square empty, so the piece that stood there is lost. The lemmas about moving are stated for sound positions only.
- Moves.Play: the refused record's promotion field, which the source leaves unset, is TypeDontCare in the model. No caller reads it, since move_forward and move_backward stop on the XX squares first.
- Engine.Game.MovePiece: requires current masks, both squares on the board, and the same en-passant condition as Moves.Play.
- Engine.Game.MoveForward: requires the record's squares to be XX or on the board, and the same en-passant condition as Moves.Play for the move it replays.
- Engine.Game.MoveBackward: requires a record whose squares are on the board, whose en-passant square is a square or XX, and whose restored en-passant pawn or castling rook square is on the board. Other records make the source write outside the board. The current game's en-passant square is not constrained, since the source overwrites it.
- The en-passant square of a game and of a record is always a board square or XX (the values the engine and the FEN reader store). The other values of its 8-bit field are not modelled.
- Notation.LongAlgebraicMove: requires the text to end within 256 characters. The source counts the length in an 8-bit variable, which would wrap.
- Notation.IncrementStringIndex: the 32-bit index is modelled without wrap-around, which would need a string of 4 GiB.
- The resolver's pin probe passes an uninitialised en-passant variable (src/farewell_to_king_mask.c:395,467). The model gives it XX (no en-passant capture).
- FenGame.CreateGameFromFen: the en-passant field reads two characters without looking for the NUL. The model reads NUL past the end of the text.
- FenGame.CreateGameFromFen: the counters accumulate in a C `int`. The model does not bound the accumulation; it keeps the value modulo 2^16 when storing it, and leaves out `int` overflow.
- FenGame.CreateGameFromFen: a placement field that runs past square 63 writes outside the board in the source. The model drops such writes.
- FenGame.GameToFenString: the buffer's length stands in for `FTK_FEN_STRING_SIZE` in the memset, and the model requires it to hold the whole text. The source assumes the caller's buffer is large enough.
- Legality.KingSquare: a side with no king gets square 0, as the macro gives. The game-end lemmas assume exactly one king of the side to move.
