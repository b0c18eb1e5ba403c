/** The value-level rules of Game.cpp: path linearity and the path scan,
    promotion, check detection on a board, the `make_move` validation chain
    as a function from a game state to the state it leaves behind, the mate
    and stalemate enumerations, the material count and the opening position.
    The `Game` class (game.dfy) is proved against these definitions. */
module GameRules {
  import opened Wrappers
  import opened Positions
  import opened Pieces
  import opened BoardModel
  import RookShape
  import BishopShape
  import QueenShape
  import KingShape
  import KnightShape
  import PawnShape

  /** A game: the board and whether white moves next (`is_white_turn`). */
  datatype GameState = GameState(board: Occupancy, whiteTurn: bool)

  // ---------------------------------------------------------------------
  // is_path_linear

  /** `is_path_linear`: same column, same row, or a diagonal. */
  predicate IsPathLinear(start: Position, end: Position) {
    if start.col == end.col || start.row == end.row then true
    else Abs(start.col - end.col) == Abs(start.row - end.row)
  }

  /** The queen's shape is exactly linearity, so every queen move is path-checked. */
  lemma QueenShapeIsLinearity(start: Position, end: Position)
    ensures QueenShape.LegalMoveShape(start, end) <==> IsPathLinear(start, end)
  {
  }

  /** Every rook, bishop, king and pawn shape is linear; no knight shape is,
      so `make_move` never path-checks a knight. */
  lemma ShapesAndLinearity(p: Piece, start: Position, end: Position)
    ensures p.kind != Knight && LegalMoveShape(p, start, end) ==> IsPathLinear(start, end)
    ensures p.kind != Knight && LegalCaptureShape(p, start, end) ==> IsPathLinear(start, end)
    ensures p.kind == Knight && LegalMoveShape(p, start, end) ==> !IsPathLinear(start, end)
  {
    if p.kind == Knight && LegalMoveShape(p, start, end) {
      KnightShape.LShape(start, end);
    }
  }

  // ---------------------------------------------------------------------
  // is_path_clear

  /** One step of the scan's cursor towards `target`: up when below it,
      down otherwise (also when already level with it). */
  function Step(x: int, target: int): int {
    if x < target then x + 1 else x - 1
  }

  /** The squares the scan's cursor stands on while its column differs from
      `end`'s: the column steps towards `end`, and so does the row when
      `moveRow` (the diagonal branch). */
  function ColumnWalk(cur: Position, end: Position, moveRow: bool): seq<Position>
    decreases Abs(end.col - cur.col)
  {
    if cur.col == end.col then []
    else [cur] + ColumnWalk(Position(Step(cur.col, end.col), if moveRow then Step(cur.row, end.row) else cur.row), end, moveRow)
  }

  /** The squares the cursor stands on while its row differs from `end`'s (the vertical branch). */
  function RowWalk(cur: Position, end: Position): seq<Position>
    decreases Abs(end.row - cur.row)
  {
    if cur.row == end.row then []
    else [cur] + RowWalk(Position(cur.col, Step(cur.row, end.row)), end)
  }

  /** The cursor's squares in the branch `is_path_clear` takes. */
  function Walk(start: Position, end: Position): seq<Position> {
    if start.row == end.row || start.col == end.col then
      if start.col == end.col then RowWalk(start, end) else ColumnWalk(start, end, false)
    else ColumnWalk(start, end, true)
  }

  function Tail(s: seq<Position>): seq<Position> {
    if s == [] then [] else s[1..]
  }

  /** The squares `is_path_clear` looks at: all of the walk except its first square. */
  function Inspected(start: Position, end: Position): seq<Position> {
    Tail(Walk(start, end))
  }

  predicate NoneOccupied(occ: Occupancy, s: seq<Position>) {
    forall q :: q in s ==> q !in occ
  }

  /** `is_path_clear`. */
  predicate IsPathClear(occ: Occupancy, start: Position, end: Position) {
    NoneOccupied(occ, Inspected(start, end))
  }

  /** The sign of a difference. */
  function Sign(x: int): (s: int)
    ensures s == -1 || s == 0 || s == 1
    ensures x * s == Abs(x)
  {
    if x < 0 then -1 else if x == 0 then 0 else 1
  }

  /** The length of a linear move: its column distance, or its row
      distance when the column does not change. */
  function Distance(start: Position, end: Position): nat {
    if start.col != end.col then Abs(end.col - start.col) else Abs(end.row - start.row)
  }

  /** The square `k` unit steps from `start` in the direction of `end`. */
  function Along(start: Position, end: Position, k: int): Position {
    Position(start.col + k * Sign(end.col - start.col), start.row + k * Sign(end.row - start.row))
  }

  /** `q` is strictly between the two ends of a linear move. */
  predicate StrictlyBetween(start: Position, end: Position, q: Position) {
    exists k :: 0 < k < Distance(start, end) && q == Along(start, end, k)
  }

  /** On a linear move the scan looks at exactly the squares strictly
      between the two ends, so the move is refused with "path is not clear"
      exactly when one of them is occupied. */
  lemma PathClearIffBetweenEmpty(occ: Occupancy, start: Position, end: Position)
    requires IsPathLinear(start, end)
    ensures forall q :: q in Inspected(start, end) <==> StrictlyBetween(start, end, q)
    ensures IsPathClear(occ, start, end) <==> forall q :: StrictlyBetween(start, end, q) ==> q !in occ
  {
    var n := Distance(start, end);
    var w := Walk(start, end);
    WalkIsLine(start, end);
    forall q
      ensures q in Inspected(start, end) <==> StrictlyBetween(start, end, q)
    {
      if q in Inspected(start, end) {
        var i :| 0 <= i < |Inspected(start, end)| && Inspected(start, end)[i] == q;
        assert w[i + 1] == q;
      }
      if StrictlyBetween(start, end, q) {
        var k :| 0 < k < n && q == Along(start, end, k);
        assert Inspected(start, end)[k - 1] == w[k];
      }
    }
  }

  /** The walk of a linear move is the line of its `Distance` squares from `start`. */
  lemma WalkIsLine(start: Position, end: Position)
    requires IsPathLinear(start, end)
    ensures |Walk(start, end)| == Distance(start, end)
    ensures forall i :: 0 <= i < Distance(start, end) ==> Walk(start, end)[i] == Along(start, end, i)
  {
    assert Along(start, end, 0) == start;
    if start == end {
      assert Walk(start, end) == [];
    } else if start.col == end.col {
      assert Walk(start, end) == RowWalk(start, end);
      WalkAlongRow(start, end, 0);
    } else {
      assert Walk(start, end) == ColumnWalk(start, end, start.row != end.row);
      WalkAlongColumn(start, end, 0, start.row != end.row);
    }
  }

  /** The vertical walk from the k-th square on. */
  lemma {:induction false} WalkAlongRow(start: Position, end: Position, k: nat)
    requires start.col == end.col && k <= Abs(end.row - start.row)
    ensures var w := RowWalk(Along(start, end, k), end);
      && |w| == Abs(end.row - start.row) - k
      && forall i :: 0 <= i < |w| ==> w[i] == Along(start, end, k + i)
    decreases Abs(end.row - start.row) - k
  {
    var cur := Along(start, end, k);
    if k < Abs(end.row - start.row) {
      assert cur.row != end.row;
      assert Position(cur.col, Step(cur.row, end.row)) == Along(start, end, k + 1);
      WalkAlongRow(start, end, k + 1);
      var w := RowWalk(cur, end);
      forall i | 0 < i < |w|
        ensures w[i] == Along(start, end, k + i)
      {
        assert w[i] == RowWalk(Along(start, end, k + 1), end)[i - 1];
      }
    } else {
      assert cur.row == end.row;
    }
  }

  /** The horizontal or diagonal walk of a linear move from the k-th square on. */
  lemma {:induction false} WalkAlongColumn(start: Position, end: Position, k: nat, moveRow: bool)
    requires start.col != end.col
    requires moveRow ==> Abs(end.col - start.col) == Abs(end.row - start.row)
    requires !moveRow ==> start.row == end.row
    requires k <= Abs(end.col - start.col)
    ensures var w := ColumnWalk(Along(start, end, k), end, moveRow);
      && |w| == Abs(end.col - start.col) - k
      && forall i :: 0 <= i < |w| ==> w[i] == Along(start, end, k + i)
    decreases Abs(end.col - start.col) - k
  {
    var cur := Along(start, end, k);
    if k < Abs(end.col - start.col) {
      assert cur.col != end.col;
      var next := Position(Step(cur.col, end.col), if moveRow then Step(cur.row, end.row) else cur.row);
      assert next == Along(start, end, k + 1) by {
        AlongNext(start, end, k);
      }
      WalkAlongColumn(start, end, k + 1, moveRow);
      var w := ColumnWalk(cur, end, moveRow);
      forall i | 0 < i < |w|
        ensures w[i] == Along(start, end, k + i)
      {
        assert w[i] == ColumnWalk(next, end, moveRow)[i - 1];
      }
    } else {
      assert cur.col == end.col;
    }
  }

  /** One more unit step along the line from `start` towards `end`. */
  lemma AlongNext(start: Position, end: Position, k: int)
    ensures Along(start, end, k + 1) ==
              Position(Along(start, end, k).col + Sign(end.col - start.col),
                       Along(start, end, k).row + Sign(end.row - start.row))
  {
    var c := Sign(end.col - start.col);
    var r := Sign(end.row - start.row);
    assert (k + 1) * c == k * c + c;
    assert (k + 1) * r == k * r + r;
  }

  /** Every square of a column walk has its column between the cursor's
      (inclusive) and `end`'s (exclusive). */
  lemma {:induction false} ColumnWalkColumns(cur: Position, end: Position, moveRow: bool)
    ensures forall q :: q in ColumnWalk(cur, end, moveRow) ==>
              if cur.col < end.col then cur.col <= q.col < end.col else end.col < q.col <= cur.col
    decreases Abs(end.col - cur.col)
  {
    if cur.col != end.col {
      ColumnWalkColumns(Position(Step(cur.col, end.col), if moveRow then Step(cur.row, end.row) else cur.row), end, moveRow);
    }
  }

  lemma {:induction false} RowWalkRows(cur: Position, end: Position)
    ensures forall q :: q in RowWalk(cur, end) ==>
              q.col == cur.col && if cur.row < end.row then cur.row <= q.row < end.row else end.row < q.row <= cur.row
    decreases Abs(end.row - cur.row)
  {
    if cur.row != end.row {
      RowWalkRows(Position(cur.col, Step(cur.row, end.row)), end);
    }
  }

  /** `is_path_clear` never looks at the start or the end square, whatever
      the shape of the move. */
  lemma NeverInspectsEnds(start: Position, end: Position)
    ensures start !in Inspected(start, end) && end !in Inspected(start, end)
  {
    if start.row == end.row || start.col == end.col {
      if start.col == end.col {
        if start.row != end.row {
          RowWalkRows(Position(start.col, Step(start.row, end.row)), end);
        }
      } else {
        ColumnWalkColumns(Position(Step(start.col, end.col), start.row), end, false);
      }
    } else {
      ColumnWalkColumns(Position(Step(start.col, end.col), Step(start.row, end.row)), end, true);
    }
  }

  // ---------------------------------------------------------------------
  // check_promotion

  /** `check_promotion`: the piece on `start` is a pawn by its designator
      and `end` is on the far row for its colour. */
  predicate CheckPromotion(occ: Occupancy, start: Position, end: Position)
    requires start in occ
  {
    var piece := occ[start];
    if ToAscii(piece) != 'p' && ToAscii(piece) != 'P' then false
    else if piece.white && end.row == Row8 then true
    else if !piece.white && end.row == Row1 then true
    else false
  }

  /** Promotion happens exactly for a white pawn ending on row 8 or a black
      pawn ending on row 1. */
  lemma PromotionIff(occ: Occupancy, start: Position, end: Position)
    requires start in occ
    ensures CheckPromotion(occ, start, end) <==>
              (occ[start] == Piece(Pawn, true) && end.row == Row8) ||
              (occ[start] == Piece(Pawn, false) && end.row == Row1)
  {
    DesignatorRoundTrip(occ[start], 'P');
    DesignatorRoundTrip(occ[start], 'p');
  }

  // ---------------------------------------------------------------------
  // in_check and would_check

  /** The square `in_check` takes for the king of the given colour. */
  function KingSquare(occ: Occupancy, white: bool): Position {
    Find(occ, if white then 'K' else 'k')
  }

  /** The test `in_check` applies to the piece on `p`: of the other colour,
      with a capture shape to the king's square and `is_path_clear` to it
      (also when the shape is not linear). */
  predicate Threatens(occ: Occupancy, white: bool, p: Position, king: Position) {
    p in occ && occ[p].white != white && LegalCaptureShape(occ[p], p, king) && IsPathClear(occ, p, king)
  }

  /** `in_check`: some on-board square holds a piece that threatens the king. */
  predicate InCheck(occ: Occupancy, white: bool) {
    exists p :: p in occ && OnBoard(p) && Threatens(occ, white, p, KingSquare(occ, white))
  }

  /** Without a king of the given colour `find_by_piece` answers (0,0),
      which no piece on the board has a capture shape to: not in check. */
  lemma NoKingNoCheck(occ: Occupancy, white: bool)
    requires AllOnBoard(occ)
    requires forall p :: p in occ ==> occ[p] != Piece(King, white)
    ensures KingSquare(occ, white) == NotFound
    ensures !InCheck(occ, white)
  {
    var d := if white then 'K' else 'k';
    FindSpec(occ, d);
    forall p | p in occ
      ensures ToAscii(occ[p]) != d
    {
      AsciiInjective(occ[p], Piece(King, white));
    }
    assert KingSquare(occ, white) == NotFound;
    forall p | OnBoard(p) && p in occ
      ensures !LegalCaptureShape(occ[p], p, NotFound)
    {
      KnightShape.LShape(p, NotFound);
    }
  }

  /** `in_check` asks `is_path_clear` also of a knight, whose walk towards
      the king passes the square next to it: a white knight on F3 gives
      check to a black king on D4, but not once any piece stands on E4. */
  lemma KnightCheckNeedsClearPath()
    ensures var knight := Position(ColA + 5, Row1 + 2);
      var king := Position(ColA + 3, Row1 + 3);
      var open := map[knight := Piece(Knight, true), king := Piece(King, false), Position(ColA, Row1) := Piece(King, true)];
      && KnightShape.LegalMoveShape(knight, king)
      && InCheck(open, false)
      && !InCheck(open[Position(ColA + 4, Row1 + 3) := Piece(Pawn, false)], false)
  {
    var knight := Position(ColA + 5, Row1 + 2);
    var king := Position(ColA + 3, Row1 + 3);
    var blocker := Position(ColA + 4, Row1 + 3);
    var open := map[knight := Piece(Knight, true), king := Piece(King, false), Position(ColA, Row1) := Piece(King, true)];
    var shut := open[blocker := Piece(Pawn, false)];
    assert ColumnWalk(Position(ColA + 3, Row1 + 2), king, true) == [];
    assert ColumnWalk(blocker, king, true) == [blocker];
    assert Walk(knight, king) == [knight, blocker];
    assert Inspected(knight, king) == [blocker];
    FindUnique(open, 'k', king);
    assert Threatens(open, false, knight, KingSquare(open, false));
    FindUnique(shut, 'k', king);
    assert blocker in shut && blocker in Inspected(knight, king);
    assert !IsPathClear(shut, knight, king);
    assert !Threatens(shut, false, knight, king);
    assert !Threatens(shut, false, Position(ColA, Row1), king);
  }

  /** The board `would_check` builds on its copy: the piece on `start`
      added on `end`, then `start` emptied. */
  function Relocate(occ: Occupancy, start: Position, end: Position): Occupancy
    requires start in occ
  {
    occ[end := occ[start]] - {start}
  }

  /** `would_check`: the mover's king (the side to move is unchanged on the
      copy) would be in check after the relocation. Promotion is not applied. */
  predicate WouldCheck(occ: Occupancy, whiteTurn: bool, start: Position, end: Position)
    requires start in occ
  {
    InCheck(Relocate(occ, start, end), whiteTurn)
  }

  // ---------------------------------------------------------------------
  // make_move

  /** The exceptions `make_move` throws, in the order it checks for them. */
  datatype MoveError =
    | StartNotOnBoard | EndNotOnBoard | NoPieceAtStart | TurnMismatch
    | CaptureOwnPiece | IllegalCaptureShape | IllegalMoveShape | PathNotClear
    | MoveCausesCheck

  /** The game after `make_move`, and whether it threw. */
  datatype MoveResult = MoveResult(state: GameState, status: Outcome<MoveError>)

  /** `make_move`. A capture removes the target before the self-check test,
      so a move refused for causing check still loses the target piece; every
      earlier refusal leaves the game as it was. */
  function Move(g: GameState, start: Position, end: Position): (r: MoveResult)
    ensures r.status.Fail? && r.status.error != MoveCausesCheck ==> r.state == g
    ensures r.status == Fail(MoveCausesCheck) ==> r.state == GameState(g.board - {end}, g.whiteTurn)
    ensures r.status == Pass ==> r.state.whiteTurn == !g.whiteTurn
  {
    var occ := g.board;
    if !OnBoard(start) then MoveResult(g, Fail(StartNotOnBoard))
    else if !OnBoard(end) then MoveResult(g, Fail(EndNotOnBoard))
    else if start !in occ then MoveResult(g, Fail(NoPieceAtStart))
    else
      var piece := occ[start];
      if piece.white != g.whiteTurn then MoveResult(g, Fail(TurnMismatch))
      else if end in occ && occ[end].white == g.whiteTurn then MoveResult(g, Fail(CaptureOwnPiece))
      else if end in occ && !LegalCaptureShape(piece, start, end) then MoveResult(g, Fail(IllegalCaptureShape))
      else if end !in occ && !LegalMoveShape(piece, start, end) then MoveResult(g, Fail(IllegalMoveShape))
      else if IsPathLinear(start, end) && !IsPathClear(occ, start, end) then MoveResult(g, Fail(PathNotClear))
      else FinishMove(g, start, end)
  }

  /** The last steps of `make_move`, once the move has passed every shape,
      occupancy and path test: remove a captured piece, refuse a move that
      leaves the mover in check, otherwise place the mover (promoted when
      `check_promotion` holds), empty its start and pass the turn. */
  function FinishMove(g: GameState, start: Position, end: Position): MoveResult
    requires start in g.board && start != end
  {
    var cleared := g.board - {end};
    if WouldCheck(cleared, g.whiteTurn, start, end) then
      MoveResult(GameState(cleared, g.whiteTurn), Fail(MoveCausesCheck))
    else
      MoveResult(GameState(PlayedBoard(g, start, end), !g.whiteTurn), Pass)
  }

  /** The board a successful move leaves: the captured piece removed, the
      mover (or a queen of its colour when `check_promotion` holds) on
      `end`, and `start` emptied. */
  function PlayedBoard(g: GameState, start: Position, end: Position): Occupancy
    requires start in g.board && start != end
  {
    var cleared := g.board - {end};
    var placed := if CheckPromotion(cleared, start, end) then Piece(Queen, g.whiteTurn) else g.board[start];
    cleared[end := placed] - {start}
  }

  /** The shape, occupancy and path part of the chain (steps 1 to 6): what
      must hold of a move before the self-check test is reached. */
  predicate Admissible(g: GameState, start: Position, end: Position) {
    && OnBoard(start) && OnBoard(end)
    && start in g.board && g.board[start].white == g.whiteTurn
    && (end in g.board ==> g.board[end].white != g.whiteTurn && LegalCaptureShape(g.board[start], start, end))
    && (end !in g.board ==> LegalMoveShape(g.board[start], start, end))
    && (IsPathLinear(start, end) ==> IsPathClear(g.board, start, end))
  }

  /** A move that passes every test of steps 1 to 6 is decided by the
      relocation steps alone. */
  lemma AdmissibleMove(g: GameState, start: Position, end: Position)
    requires Admissible(g, start, end)
    ensures Move(g, start, end) == FinishMove(g, start, end)
  {
  }

  /** `make_move` succeeds exactly when the move is admissible and the
      relocated position does not leave the mover in check; it throws "check"
      exactly when it is admissible and the relocation does. */
  lemma MoveSucceedsIff(g: GameState, start: Position, end: Position)
    ensures Move(g, start, end).status == Pass <==>
              Admissible(g, start, end) && !WouldCheck(g.board - {end}, g.whiteTurn, start, end)
    ensures Move(g, start, end).status == Fail(MoveCausesCheck) <==>
              Admissible(g, start, end) && WouldCheck(g.board - {end}, g.whiteTurn, start, end)
  {
  }

  /** Off-board ends, an empty start or a piece of the wrong colour make
      `make_move` throw with the game unchanged. */
  lemma MoveRejectsInvalidStart(g: GameState, start: Position, end: Position)
    requires !OnBoard(start) || !OnBoard(end) || start !in g.board || g.board[start].white != g.whiteTurn
    ensures Move(g, start, end).status.Fail? && Move(g, start, end).state == g
  {
  }

  /** A piece never moves onto its own square: that is a capture of one's own piece. */
  lemma NullMoveRejected(g: GameState, p: Position)
    ensures Move(g, p, p).status.Fail?
    ensures OnBoard(p) && p in g.board && g.board[p].white == g.whiteTurn ==>
              Move(g, p, p).status == Fail(CaptureOwnPiece)
  {
  }

  /** On success: `end` holds the mover, or a queen of its colour when
      `check_promotion` holds; `start` is empty; every other square is as
      before; the other side moves next; the board stays on A-H/1-8. */
  lemma MoveSuccessEffect(g: GameState, start: Position, end: Position)
    requires Move(g, start, end).status == Pass
    ensures var after := Move(g, start, end).state;
      && start != end && start in g.board
      && end in after.board && start !in after.board
      && after.board[end] == (if CheckPromotion(g.board, start, end) then Piece(Queen, g.whiteTurn) else g.board[start])
      && after.board[end].white == g.whiteTurn
      && (forall q :: q != start && q != end ==> PieceAt(after.board, q) == PieceAt(g.board, q))
      && after.whiteTurn == !g.whiteTurn
      && (AllOnBoard(g.board) ==> AllOnBoard(after.board))
  {
    assert start in g.board - {end};
  }

  /** A move that is refused because it causes check still removes the
      piece it would have captured; the turn does not change. */
  lemma RefusedCaptureLosesTarget(g: GameState, start: Position, end: Position)
    requires Move(g, start, end).status == Fail(MoveCausesCheck)
    requires end in g.board
    ensures var after := Move(g, start, end).state;
      end !in after.board && after.board != g.board && after.whiteTurn == g.whiteTurn
  {
  }

  // ---------------------------------------------------------------------
  // is_possible_move, prevent_check, in_mate, in_stalemate

  /** `is_possible_move` and `prevent_check`: `make_move` from `pos` to some
      square, on a copy of the game, does not throw. */
  ghost predicate HasLegalMove(g: GameState, pos: Position) {
    exists sq :: OnBoard(sq) && Move(g, pos, sq).status == Pass
  }

  /** `in_mate`: in check, and no piece of that colour has a legal move. */
  ghost predicate InMate(g: GameState, white: bool) {
    InCheck(g.board, white) &&
    forall p :: OnBoard(p) && p in g.board && g.board[p].white == white ==> !HasLegalMove(g, p)
  }

  /** `in_stalemate`: no piece of that colour has a legal move (the test
      does not ask whether the side is in check). */
  ghost predicate InStalemate(g: GameState, white: bool) {
    forall p :: OnBoard(p) && p in g.board && g.board[p].white == white ==> !HasLegalMove(g, p)
  }

  /** Mate is check plus the stalemate enumeration; so a side not in check
      is never mated. */
  lemma MateIsCheckAndNoMove(g: GameState, white: bool)
    ensures InMate(g, white) <==> InCheck(g.board, white) && InStalemate(g, white)
    ensures !InCheck(g.board, white) ==> !InMate(g, white)
  {
  }

  /** For the side that is not to move every `make_move` throws, so that
      side is always "in stalemate", and "in mate" whenever it is in check. */
  lemma WrongSideHasNoMove(g: GameState, white: bool)
    requires white != g.whiteTurn
    ensures InStalemate(g, white)
    ensures InMate(g, white) <==> InCheck(g.board, white)
  {
    forall p, sq | OnBoard(p) && p in g.board && g.board[p].white == white
      ensures Move(g, p, sq).status != Pass
    {
      MoveRejectsInvalidStart(g, p, sq);
    }
  }

  // ---------------------------------------------------------------------
  // point_value

  /** What the square contributes to the material of one side. */
  function Worth(occ: Occupancy, white: bool, p: Position): nat {
    if p in occ && occ[p].white == white then PointValue(occ[p]) else 0
  }

  /** The sum over the first `n` squares of the iteration order. */
  function MaterialUpTo(occ: Occupancy, white: bool, n: nat): nat
    requires n <= 64
  {
    if n == 0 then 0 else MaterialUpTo(occ, white, n - 1) + Worth(occ, white, SquareAt(n - 1))
  }

  /** `point_value`: the sum over the 64 squares. */
  function Material(occ: Occupancy, white: bool): nat {
    MaterialUpTo(occ, white, 64)
  }

  /** Changing the board on one square changes the material by that
      square's difference. */
  lemma {:induction false} MaterialOneSquare(occ: Occupancy, occ': Occupancy, white: bool, q: Position, n: nat)
    requires OnBoard(q) && n <= 64
    requires forall p :: p != q ==> Worth(occ', white, p) == Worth(occ, white, p)
    ensures MaterialUpTo(occ', white, n) + (if SquareIndex(q) < n then Worth(occ, white, q) else 0) ==
            MaterialUpTo(occ, white, n) + (if SquareIndex(q) < n then Worth(occ', white, q) else 0)
  {
    if n > 0 {
      MaterialOneSquare(occ, occ', white, q, n - 1);
      if SquareAt(n - 1) == q {
        assert SquareIndex(q) == n - 1;
      } else {
        assert SquareIndex(q) != n - 1;
      }
    }
  }

  lemma MaterialChange(occ: Occupancy, occ': Occupancy, white: bool, q: Position)
    requires OnBoard(q)
    requires forall p :: p != q ==> Worth(occ', white, p) == Worth(occ, white, p)
    ensures Material(occ', white) + Worth(occ, white, q) == Material(occ, white) + Worth(occ', white, q)
  {
    MaterialOneSquare(occ, occ', white, q, 64);
  }

  /** A successful move lowers the opponent's material by the value of the
      captured piece (0 when nothing is captured) and raises the mover's by
      8 when a pawn is promoted to a queen, by 0 otherwise. */
  lemma MaterialAfterMove(g: GameState, start: Position, end: Position)
    requires Move(g, start, end).status == Pass
    ensures var after := Move(g, start, end).state.board;
      && Material(after, !g.whiteTurn) ==
           Material(g.board, !g.whiteTurn) - (if end in g.board then PointValue(g.board[end]) else 0)
      && Material(after, g.whiteTurn) ==
           Material(g.board, g.whiteTurn) + (if CheckPromotion(g.board, start, end) then 8 else 0)
  {
    MoveSuccessEffect(g, start, end);
    var occ := g.board;
    var after := Move(g, start, end).state.board;
    PromotionIff(occ, start, end);
    // Through the intermediate board where only `end` has changed.
    var mid := occ[end := after[end]];
    forall w: bool
      ensures Material(after, w) + Worth(occ, w, end) + Worth(mid, w, start) ==
              Material(occ, w) + Worth(mid, w, end) + Worth(after, w, start)
    {
      MaterialChange(occ, mid, w, end);
      assert forall p :: p != start ==> Worth(after, w, p) == Worth(mid, w, p);
      MaterialChange(mid, after, w, start);
    }
  }

  // ---------------------------------------------------------------------
  // Kings across a move

  /** The designator sets after relocating `start` to `end` with piece `placed`. */
  lemma DesignatorsAfterRelocation(occ: Occupancy, start: Position, end: Position, placed: Piece, e: char)
    requires start != end
    ensures WithDesignator((occ - {end})[end := placed] - {start}, e) ==
              WithDesignator(occ, e) - {start, end} + (if ToAscii(placed) == e then {end} else {})
  {
  }

  /** Relocating a piece whose designator is `e` exactly when the start
      piece's is keeps the number of `e` pieces, less a captured one. */
  lemma CountAfterRelocation(occ: Occupancy, start: Position, end: Position, placed: Piece, e: char)
    requires start != end
    requires ToAscii(placed) == e <==> HasDesignator(occ, start, e)
    ensures |WithDesignator((occ - {end})[end := placed] - {start}, e)| ==
              |WithDesignator(occ, e)| - (if HasDesignator(occ, end, e) then 1 else 0)
  {
    var before := WithDesignator(occ, e);
    var after := WithDesignator((occ - {end})[end := placed] - {start}, e);
    var base := before - {start, end};
    DesignatorsAfterRelocation(occ, start, end, placed, e);
    RemoveTwo(before, start, end);
    if ToAscii(placed) == e {
      assert after == base + {end};
    } else {
      assert after == base;
    }
  }

  /** Removing an element shrinks a set by one exactly when it holds it. */
  lemma RemoveOne(s: set<Position>, a: Position)
    ensures |s| == |s - {a}| + (if a in s then 1 else 0)
  {
    if a in s {
      assert s == (s - {a}) + {a};
    } else {
      assert s - {a} == s;
    }
  }

  /** Removing two distinct elements shrinks a set by those of them it holds. */
  lemma RemoveTwo(s: set<Position>, a: Position, b: Position)
    requires a != b
    ensures |s| == |s - {a, b}| + (if a in s then 1 else 0) + (if b in s then 1 else 0)
  {
    RemoveOne(s, a);
    RemoveOne(s - {a}, b);
    assert s - {a} - {b} == s - {a, b};
  }

  /** The relocation never makes a king: the number of `K`s and of `k`s on
      the played board drops by one when a king is captured and is
      otherwise unchanged. */
  lemma PlayedKeepsKings(g: GameState, start: Position, end: Position, d: char)
    requires start in g.board && start != end
    requires d == 'K' || d == 'k'
    ensures |WithDesignator(PlayedBoard(g, start, end), d)| ==
              |WithDesignator(g.board, d)| - (if HasDesignator(g.board, end, d) then 1 else 0)
  {
    var occ := g.board;
    var after := PlayedBoard(g, start, end);
    var placed := after[end];
    assert after == (occ - {end})[end := placed] - {start};
    PromotionIff(occ - {end}, start, end);
    DesignatorRoundTrip(placed, d);
    DesignatorRoundTrip(occ[start], d);
    CountAfterRelocation(occ, start, end, placed, d);
  }

  /** A successful move never makes a king: the number of `K`s and of `k`s
      drops by one when a king is captured and is otherwise unchanged, so a
      move that captures no king keeps a valid board valid. */
  lemma MoveKeepsKings(g: GameState, start: Position, end: Position, d: char)
    requires Move(g, start, end).status == Pass
    requires d == 'K' || d == 'k'
    ensures var after := Move(g, start, end).state.board;
      |WithDesignator(after, d)| ==
        |WithDesignator(g.board, d)| - (if HasDesignator(g.board, end, d) then 1 else 0)
    ensures var after := Move(g, start, end).state.board;
      KingsValid(g.board) && (end in g.board ==> g.board[end].kind != King) ==> KingsValid(after)
  {
    MoveSuccessEffect(g, start, end);
    AdmissibleMove(g, start, end);
    PlayedKeepsKings(g, start, end, 'K');
    PlayedKeepsKings(g, start, end, 'k');
    if end in g.board {
      DesignatorRoundTrip(g.board[end], 'K');
      DesignatorRoundTrip(g.board[end], 'k');
    }
  }

  // ---------------------------------------------------------------------
  // The initial position (Game::Game)

  /** The back-rank kind on column `col`: R N B Q K B N R. */
  function BackRank(col: int): Kind {
    if col == ColA || col == ColH then Rook
    else if col == ColA + 1 || col == ColA + 6 then Knight
    else if col == ColA + 2 || col == ColA + 5 then Bishop
    else if col == ColA + 3 then Queen
    else King
  }

  /** What stands on each square of the opening position. */
  function InitialPieceAt(p: Position): Option<Piece> {
    if !OnBoard(p) then None
    else if p.row == Row2 then Some(Piece(Pawn, true))
    else if p.row == Row7 then Some(Piece(Pawn, false))
    else if p.row == Row1 then Some(Piece(BackRank(p.col), true))
    else if p.row == Row8 then Some(Piece(BackRank(p.col), false))
    else None
  }

  /** The opening position has one king of each colour, on E1 and E8. */
  lemma InitialKings(occ: Occupancy)
    requires forall p :: PieceAt(occ, p) == InitialPieceAt(p)
    ensures AllOnBoard(occ) && KingsValid(occ)
    ensures WithDesignator(occ, 'K') == {Position(ColA + 4, Row1)}
    ensures WithDesignator(occ, 'k') == {Position(ColA + 4, Row8)}
  {
    assert AllOnBoard(occ) by {
      forall p | p in occ ensures OnBoard(p) {
        assert PieceAt(occ, p) == InitialPieceAt(p);
      }
    }
    forall p | p in occ
      ensures ToAscii(occ[p]) == 'K' <==> p == Position(ColA + 4, Row1)
      ensures ToAscii(occ[p]) == 'k' <==> p == Position(ColA + 4, Row8)
    {
      assert PieceAt(occ, p) == InitialPieceAt(p);
    }
    assert PieceAt(occ, Position(ColA + 4, Row1)) == InitialPieceAt(Position(ColA + 4, Row1));
    assert PieceAt(occ, Position(ColA + 4, Row8)) == InitialPieceAt(Position(ColA + 4, Row8));
    assert WithDesignator(occ, 'K') == {Position(ColA + 4, Row1)};
    assert WithDesignator(occ, 'k') == {Position(ColA + 4, Row8)};
  }
}
