# Chess rule engine — a verified Dafny model

This project models the rule engine of a small C++ chess program: the
geometry of each piece, the sparse board that maps squares to pieces, and
the `Game` object that validates and plays moves, detects check, mate and
stalemate, counts material and reads and writes games as text.

Squares are pairs of character codes, as in the program: columns `'A'..'H'`
(65..72) and rows `'1'..'8'` (49..56). `(-1,-1)` is the iterator's end
sentinel and `(0,0)` is what `find_by_piece` answers when no piece matches.
A piece is a value `Piece(kind, white)`.

The project has these parts:

- **Pieces** (`pawn.dfy`, `rook.dfy`, `knight.dfy`, `bishop.dfy`,
  `queen.dfy`, `king.dfy`, `pieces.dfy`): the move shapes are pure
  predicates over column and row deltas.
  - Rook, bishop, king and knight: lemmas for symmetry, the null move, and
    the squares reached from D4. The rook, bishop and knight files also
    have a lemma for a move they refuse.
  - Queen: its shape is exactly the rook's or the bishop's, and it is
    symmetric.
  - Pawn: its direction by colour, black as the mirror of white, the null
    move, the backward and sideways moves it refuses, move and capture
    shapes never overlapping, and a worked example from B2.
- **Board** (`board.dfy`): the `Board` class holds its map in the field
  `occ`. `AddPiece`, `RemovePiece` and `RemoveAll` change it in place. The
  lookups and `has_valid_kings` are loops, each proved against a function.
  - The iterator is a class whose `Increment` moves its `pos` field.
  - A closed form for the iteration order, `SquareAt`, shows that 64
    increments from A1 visit every square once and then reach the sentinel.
- **Rules** (`game_rules.dfy`): the value-level meaning of the `Game`
  operations. `make_move` is a function from a game state to the state it
  leaves behind and its outcome. The path scan, check, promotion, mate,
  stalemate and material are stated here, and the properties of moves are
  proved here.
- **Codec** (`codec.dfy`): the text form a game is written in and read
  from, with the proof that reading back what was written restores the
  game.
- **Game** (`game.dfy`): the `Game` class holds `board` and `isWhiteTurn`.
  Each operation is a method whose loops follow the program's. Each method
  is proved to compute what the functions of the rules and codec parts
  define.

In these places the model follows the code rather than an idealised chess
engine:

- A capture removes the target before the self-check test. A capture that
  is refused because it would leave the mover in check has still removed
  the target.
- `in_check` demands a clear path from a knight as well.
  `GameRules.KnightCheckNeedsClearPath` shows a knight check that goes
  unseen once a piece stands on the square the scan passes. As a result a
  king can step into a knight's check and then be captured, which leaves
  the board without that king (`KingSafety.KingCapturedAfterBlindKnightCheck`;
  see Findings).
- `in_stalemate` does not ask whether the side is in check.
- `would_check` simulates the move without promotion.

## Model

| member | source | states |
|---|---|---|
| Positions.SentinelsOffBoard | Board.h:113-120 | the end sentinel (-1,-1) and the not-found answer (0,0) are off the board; the board's columns and rows are the character codes of 'A'..'H' and '1'..'8' |
| Pieces.ToAscii | Board.cpp:126-131 | a piece's designator is an upper-case letter exactly when the piece is white, and is never '-' or a newline |
| Pieces.CreatePiece | Board.cpp:58-63 | a designator that makes a piece makes a white one exactly when it is upper case; '-' and newline make none |
| Pieces.DesignatorRoundTrip | Board.cpp:22-27 | creating a piece from a piece's designator gives that piece back, and a designator that creates a piece is that piece's designator |
| Pieces.AsciiInjective | Board.cpp:147-163 | two pieces have the same designator exactly when they are the same piece |
| Pieces.PointValue | Game.cpp:353-363 | a piece is worth at most 9 points, and 0 exactly when it is a king |
| Pieces.ColourMattersOnlyForPawns | Pawn.cpp:37-49 | only the pawn's shapes depend on its colour; every other kind captures with its move shape |
| PawnShape.MoveShapeByDirection | Pawn.cpp:6-35 | a pawn move keeps the column and goes 0 to 1 rows forward for its colour, or 0 to 2 from its home row |
| PawnShape.BlackMirrorsWhite | Pawn.cpp:22-31 | a black pawn's move and capture shapes are the white ones reflected top to bottom |
| PawnShape.NullMoveAccepted | Pawn.cpp:15-20 | the move shape accepts the zero move, since only negative deltas are refused |
| PawnShape.BackwardOrSidewaysRejected | Pawn.cpp:15-31 | a move that changes column or goes backwards for its colour is refused |
| PawnShape.MoveAndCaptureDisjoint | Pawn.cpp:6-49 | no start and end satisfy both the move shape and the capture shape |
| PawnShape.WhitePawnFromB2 | Pawn.cpp:9-20 | a white pawn on B2 moves to B3 and B4 but not B5, and captures on A3 and C3 but not B3 |
| RookShape.Symmetric | Rook.cpp:6-13 | the rook shape is the same from start to end as from end to start |
| RookShape.NullMoveAccepted | Rook.cpp:9 | the rook shape accepts the zero move |
| RookShape.DiagonalRejected | Rook.cpp:9-12 | a move that changes both column and row is refused |
| RookShape.RookFromD4 | Rook.cpp:6-13 | from D4 the rook reaches D8, D1, A4 and H4 but not E5 |
| BishopShape.Symmetric | Bishop.cpp:6-14 | the bishop shape is symmetric in start and end |
| BishopShape.NullMoveAccepted | Bishop.cpp:10 | the bishop shape accepts the zero move |
| BishopShape.StraightRejected | Bishop.cpp:10 | a non-zero move along a row or a column is refused |
| BishopShape.BishopFromD4 | Bishop.cpp:6-14 | from D4 the bishop reaches A1 and G7 but not D5 |
| QueenShape.RookOrBishop | Queen.cpp:6-19 | the queen shape holds exactly when the rook shape or the bishop shape does |
| QueenShape.Symmetric | Queen.cpp:6-19 | the queen shape is symmetric in start and end |
| KingShape.Symmetric | King.cpp:5-12 | the king shape is symmetric in start and end |
| KingShape.NullMoveAccepted | King.cpp:7 | the king shape accepts the zero move |
| KingShape.KingFromD4 | King.cpp:5-12 | from D4 the king reaches exactly the nine squares C3..E5, and not C2 |
| KnightShape.LShape | Knight.cpp:13 | the product test accepts exactly one column and two rows, or two columns and one row |
| KnightShape.NullMoveRejected | Knight.cpp:13 | the knight shape refuses the zero move |
| KnightShape.Symmetric | Knight.cpp:13 | the knight shape is symmetric in start and end |
| KnightShape.KnightFromD4 | Knight.cpp:6-17 | from D4 the knight reaches exactly B3, B5, C2, C6, E2, E6, F3 and F5 |
| BoardModel.PlaceOutcome | Board.cpp:56-78 | `add_piece` fails with "invalid designator" first, then "position is occupied", then "invalid position"; on success the board gains exactly the target square, which holds a piece with that designator |
| BoardModel.SquareAt | Board.h:77-95 | the iteration order's first 64 squares are exactly the on-board ones, and its 65th is off the board |
| BoardModel.NextSquare | Board.h:77-95 | `operator++` on the i-th square of the order gives the (i+1)-th: along the row, from H to A of the next row, from H8 to the sentinel |
| BoardModel.IterationOrder | Board.h:77-120 | n increments from `cbegin` land on the n-th square of the row-by-row order |
| BoardModel.IterationCoversBoard | Board.h:77-120 | 64 increments from A1 reach the sentinel and no fewer do; the 64 squares visited are pairwise distinct and cover the board |
| BoardModel.BoardIterator.constructor | Board.h:74 | the iterator starts on the given square |
| BoardModel.BoardIterator.Increment | Board.h:77-95 | the iterator moves to the next square of the order |
| BoardModel.BoardIterator.Equals | Board.h:98-100 | two iterators are equal exactly when both coordinates agree |
| BoardModel.BoardIterator.NotEquals | Board.h:103 | `!=` is the negation of `==` |
| BoardModel.FindFromSpec | Board.cpp:47-53 | the scan from key i returns (0,0) when no later key holds the designator, and otherwise the first such key |
| BoardModel.FindSpec | Board.cpp:47-53 | `find_by_piece(d)` is (0,0) exactly when no piece has designator d; otherwise it is a square holding d that comes first in key order |
| BoardModel.FindUnique | Board.cpp:47-53 | when exactly one square holds d, `find_by_piece(d)` returns that square |
| BoardModel.KingsValidLocates | Board.cpp:147-163 | on a board with one king of each colour, `find_by_piece` of a king's designator lands on that king |
| BoardModel.DumpLayout | Board.cpp:172-185 | the dump is 8 lines of 8 characters and a newline, row 8 first, each square's designator or '-' |
| BoardModel.Board.constructor | Board.cpp:12 | a new board is empty |
| BoardModel.Board.Copy | Board.cpp:15-30 | copying square by square into an empty board reproduces the source's contents exactly |
| BoardModel.Board.CBegin | Board.h:118-120 | `cbegin` is on A1, the first square of the order |
| BoardModel.Board.CEnd | Board.h:113-115 | `cend` is on the sentinel, the 65th place of the order |
| BoardModel.Board.Lookup | Board.cpp:37-44 | returns the piece stored on the square, or none when the square is empty |
| BoardModel.Board.FindByPiece | Board.cpp:47-53 | returns the first square in key order holding the designator, or (0,0) |
| BoardModel.Board.AddPiece | Board.cpp:56-78 | changes the board exactly as `Place` says and reports its error, leaving the board unchanged on failure; the board stays on A-H/1-8 |
| BoardModel.Board.RemovePiece | Board.cpp:81-86 | the square becomes empty, every other square is unchanged, and removing from an empty square changes nothing |
| BoardModel.Board.RemoveAll | Board.cpp:89-95 | the board is left empty |
| BoardModel.Board.HasValidKings | Board.cpp:147-163 | true exactly when there is one `K` and one `k` |
| BoardModel.Board.Write | Board.cpp:172-185 | emits the dump of the board's contents |
| GameRules.QueenShapeIsLinearity | Game.cpp:155-167 | the queen shape coincides with `is_path_linear`, so every queen move is path-checked |
| GameRules.ShapesAndLinearity | Game.cpp:117-121 | rook, bishop, king and pawn shapes are linear and knight shapes never are, so `make_move` never path-checks a knight |
| GameRules.PathClearIffBetweenEmpty | Game.cpp:170-242 | on a linear move the scan inspects exactly the squares strictly between start and end, so the path is clear exactly when all of them are empty |
| GameRules.WalkIsLine | Game.cpp:180-238 | the cursor's squares on a linear move are the line of unit steps from start towards end |
| GameRules.NeverInspectsEnds | Game.cpp:186-238 | the scan never inspects the start or the end square |
| GameRules.PromotionIff | Game.cpp:57-76 | promotion holds exactly for a white pawn ending on row 8 or a black pawn ending on row 1 |
| GameRules.NoKingNoCheck | Game.cpp:263-284 | with no king of a colour, the king square `find_by_piece` gives is (0,0) and that side is never in check |
| GameRules.KnightCheckNeedsClearPath | Game.cpp:274-278 | a white knight on F3 gives a knight's move to a black king on D4 and `in_check` reports check, but not once a black pawn stands on E4 |
| GameRules.Move | Game.cpp:79-151 | every refusal except "this move causes a check" leaves the game as it was; that one leaves the captured square empty; a success passes the turn |
| GameRules.MoveSucceedsIff | Game.cpp:79-131 | a move succeeds exactly when it passes the shape, occupancy and path tests and the relocated board does not leave the mover in check; it fails with "causes a check" exactly when it passes them and the relocation does |
| GameRules.MoveRejectsInvalidStart | Game.cpp:82-94 | an off-board start or end, an empty start or a piece of the wrong colour makes the move fail with the game unchanged |
| GameRules.NullMoveRejected | Game.cpp:96-115 | a move from a square to itself never succeeds; with an own piece there it fails as a capture of one's own piece |
| GameRules.MoveSuccessEffect | Game.cpp:133-149 | on success `end` holds the mover, or a queen of its colour when promoting; `start` is empty; every other square is unchanged; the turn flips; the board stays on A-H/1-8 |
| GameRules.RefusedCaptureLosesTarget | Game.cpp:122-131 | a capture refused because it causes check has still removed the target piece, and the turn stays |
| GameRules.MateIsCheckAndNoMove | Game.cpp:303-319 | mate is check plus no movable piece, so a side not in check is never mated |
| GameRules.WrongSideHasNoMove | Game.cpp:338-350 | for the side not to move every `make_move` throws, so that side is always in stalemate and is mated exactly when in check |
| GameRules.MaterialAfterMove | Game.cpp:353-363 | a move lowers the opponent's material by the captured piece's value and raises the mover's by 8 on promotion, by 0 otherwise |
| GameRules.PlayedKeepsKings | Game.cpp:123-149 | on the board a move leaves, the number of `K`s (or `k`s) is the old number less one exactly when the captured piece had that designator |
| GameRules.MoveKeepsKings | Game.cpp:133-149 | after a move, the number of `K`s (or `k`s) is the old number less one exactly when the captured piece had that designator; so a move that captures no king keeps `is_valid_game` true |
| GameRules.InitialKings | Game.cpp:11-41 | the opening position is on the board and has one king of each colour, on E1 and E8 |
| GameCodec.RoundTrip | Game.cpp:366-404 | reading back what `operator<<` wrote, into any game, restores every square and the turn without error |
| GameCodec.TurnCharacter | Game.cpp:366-384 | for any text, the read fails on the turn character exactly when every grid character was accepted and the next character is neither 'w' nor 'b'; the board read is then kept with the old turn, and a successful read takes the turn from that character |
| GameCodec.BadTurnRejected | Game.cpp:379-382 | after a grid written by `operator<<`, a turn character other than 'w' or 'b' makes the read fail, with the whole board read and the turn unchanged |
| GameCodec.FillStaysOnBoard | Game.cpp:371-377 | whatever the text, the read leaves every piece on A-H/1-8 |
| KingSafety.BlindKingMove | Game.cpp:263-284 | from the board with a white knight on F3, a black king on D5, a black pawn on E4 and the white king on A1, black's D5-D4 succeeds, because the knight's scan stops on E4 |
| KingSafety.KnightTakesKing | Game.cpp:79-151 | after that, white's F3xD4 succeeds: a knight's move is never path-checked and the white king is not attacked |
| KingSafety.KingCapturedAfterBlindKnightCheck | Game.cpp:79-151 | the board starts with one king of each colour, and after those two successful moves it has no black king |
| KingSafety.MoveIntended | Game.cpp:79-151 | the intended `make_move`: it succeeds exactly when the move passes the validation chain and the relocated board leaves the mover out of check, and every refusal leaves the game as it was |
| KingSafety.BlindKnightCheckRefused | Game.cpp:263-284 | under the intended check, black's D5-D4 on the same board is refused for causing check and the game is unchanged |
| KingSafety.KingSquareIs | Board.cpp:47-53 | on a board with one king of each colour, `find_by_piece` of a king's designator is that king's square |
| KingSafety.KingCaptureIsCheck | Game.cpp:263-284 | on a board with one king of each colour, a move that passes the validation chain and captures the opponent's king means the opponent is in check under the intended test |
| KingSafety.NoKingCapture | Game.cpp:79-121 | from a safe position the move to play never captures a king |
| KingSafety.SafeStep | Game.cpp:79-151 | every intended move, successful or refused, keeps a position safe: all pieces on the board, one king of each colour, the side that has just moved not in check |
| KingSafety.KingsSurvive | Game.cpp:79-151 | from a safe position, any sequence of intended moves leaves one king of each colour |
| KingSafety.OpeningIsSafe | Game.cpp:11-41 | the opening position with white to move is safe: no white piece has a capture shape to the black king on E8 |
| KingSafety.KingsSurviveFromOpening | Game.cpp:11-151 | under the intended rules, any sequence of moves from the opening position leaves one king of each colour |
| ChessGame.Game.constructor | Game.cpp:11-41 | the new game has the standard opening position, and white moves first |
| ChessGame.Game.PlacePawns | Game.cpp:12-16 | the pawn loop puts a white pawn on row 2 and a black pawn on row 7 of every column |
| ChessGame.Game.PlaceBackRank | Game.cpp:18-40 | the sixteen back-rank additions complete the opening position |
| ChessGame.Game.Copy | Game.cpp:44-54 | the copy has its own board with the same contents and the same side to move |
| ChessGame.Game.TurnWhite | Game.h:25 | true exactly when white is to move |
| ChessGame.Game.IsValidGame | Game.h:31 | true exactly when the board has one king of each colour |
| ChessGame.Game.IsPathClear | Game.cpp:170-242 | the three scanning loops answer exactly whether the walk's squares after the first are all empty |
| ChessGame.Game.InCheck | Game.cpp:263-284 | true exactly when some on-board piece of the other colour has a capture shape and a clear path to the king's square |
| ChessGame.Game.ThreatensKing | Game.cpp:270-281 | the body of the `in_check` scan: the piece on the square is an enemy with a capture shape and a clear path to the king |
| ChessGame.Game.WouldCheck | Game.cpp:245-260 | on a copy, moving the piece to the empty end square leaves the side to move in check |
| ChessGame.Game.MakeMove | Game.cpp:79-151 | the new game and the outcome are exactly what `Move` gives for the old game |
| ChessGame.Game.ValidateMove | Game.cpp:82-121 | the first failed test of the chain, or none exactly when the move is admissible; a refusal is the one `Move` reports, with the game unchanged |
| ChessGame.Game.PlaceMover | Game.cpp:133-149 | the mover (or a promoted queen) is on `end`, `start` is empty and the turn has passed |
| ChessGame.Game.IsPossibleMove | Game.cpp:288-299 | true exactly when `make_move` from the square to some on-board square succeeds on a copy |
| ChessGame.Game.MovableAt | Game.cpp:339-346 | the square holds a piece of that colour which can move |
| ChessGame.Game.InMate | Game.cpp:303-319 | true exactly when the side is in check and none of its pieces can move |
| ChessGame.Game.InStalemate | Game.cpp:338-350 | true exactly when none of the side's pieces can move |
| ChessGame.Game.PointValue | Game.cpp:353-363 | the sum of the point values of the side's pieces over the 64 squares |
| ChessGame.Game.Read | Game.cpp:366-387 | the board and turn after reading, and the outcome, are exactly those `Load` gives for the text |
| ChessGame.Game.Write | Game.cpp:399-404 | writes the board dump and the turn character, and reading that text into any game restores this one |

## Findings

The `Game` class keeps the program's behaviour, so that it models the code
as written. The corrected rules are in `king_safety.dfy`. They reuse the
same validation chain (`Admissible`) and the same relocation
(`PlayedBoard`), and differ only where each row says.

| source | as written | input that shows it | evidently intended | confidence | as-written member | corrected member |
|---|---|---|---|---|---|---|
| Game.cpp:274-278 | `in_check` asks `is_path_clear` of every attacker, knights included, so a piece on the square the knight's scan passes hides the check | white N F3, black K D5, black P E4, white K A1, black to move: D5-D4 succeeds, then F3xD4 succeeds and the black king is gone | test the path only for a linear capture shape, as `make_move` does at Game.cpp:119; then D5-D4 is refused for causing check | high (proved, not executed) | KingSafety.KingCapturedAfterBlindKnightCheck | KingSafety.BlindKnightCheckRefused |
| Game.cpp:123-131 | a capture removes the target before `would_check`, so a move refused for causing check still loses the captured piece | any capture whose relocation leaves the mover in check | a refused move leaves the game as it was; with both corrections no sequence of moves from the opening loses a king | high (proved, not executed) | GameRules.RefusedCaptureLosesTarget | KingSafety.KingsSurviveFromOpening |

## Left out

- `Board::display` and the terminal colouring are console output and are not modelled.
- Heap ownership is not modelled: `new`/`delete`, `cleanup`, the destructors and `operator=` into a non-empty board. Copies are fresh objects with the same contents.
- Stream mechanics are not modelled. The input stream is the sequence of characters it delivers. Reading past its end gives the character 0xFF, which is what `get()` returns at end of file once cast to `char`.
- Piece.h, CreatePiece.h, Mystery.h, Helper.h and Exceptions.h are not part of this model. For the pieces this means:
  - designators are `PNBRQK` for white and `pnbrqk` for black, and no others;
  - point values are P 1, N 3, B 3, R 5, Q 9, K 0;
  - the default capture shape is the move shape;
  - the mystery piece is not modelled.
- Exceptions are modelled as `Outcome` values that name each message.
- Characters are unbounded integers. The wrap-around of the signed 8-bit `char` near the board edge is not modelled. The scans only step between two squares of the board.
- `in_check` makes a throw-away copy of the game on each iteration. The copy has no effect on the result and is not modelled.
- `prevent_check` is the same loop as `is_possible_move`. `ChessGame.Game.MovableAt` calls `IsPossibleMove` for both `InMate` and `InStalemate`.
- ChessGame.Game.WouldCheck: requires that `start` holds a piece and that `end` is empty and on the board. `make_move`, its only caller, establishes both.
- ChessGame.Game.PlaceBackRank: the constructor's sixteen back-rank `add_piece` calls are a loop over a table of (square, designator) pairs, `BackRankSetup`, in the same order. This keeps the proof within the solver's limits.
- ChessGame.Game.ValidateMove, ChessGame.Game.PlaceMover and ChessGame.Game.ThreatensKing are parts of the bodies of `make_move` and `in_check`, split out as methods.
