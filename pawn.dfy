/** Pawn.cpp: the pawn's straight advance and its diagonal capture. */
module PawnShape {
  import opened Positions

  /** `Pawn::legal_move_shape`: the row distance towards the far side is
      between 0 and the range (2 from the home row, 1 elsewhere) and the
      column does not change. */
  predicate LegalMoveShape(white: bool, start: Position, end: Position) {
    if white then
      var range := if start.row == Row2 then 2 else 1;
      !(end.row - start.row > range || end.row - start.row < 0) && end.col == start.col
    else
      var range := if start.row == Row7 then 2 else 1;
      !(start.row - end.row > range || start.row - end.row < 0) && end.col == start.col
  }

  /** `Pawn::legal_capture_shape`: one column over and one row forward. */
  predicate LegalCaptureShape(white: bool, start: Position, end: Position) {
    if white then Abs(end.col - start.col) == 1 && end.row - start.row == 1
    else Abs(end.col - start.col) == 1 && start.row - end.row == 1
  }

  /** The row direction a pawn of the given colour advances in. */
  function Forward(white: bool): (d: int)
    ensures d == 1 || d == -1
  {
    if white then 1 else -1
  }

  /** The row a pawn of the given colour starts on. */
  function HomeRow(white: bool): (r: int)
    ensures Row1 < r < Row8
  {
    if white then Row2 else Row7
  }

  /** Reflects a square across the middle of the board (row 1 <-> row 8). */
  function Mirror(p: Position): (q: Position)
    ensures q.col == p.col && q.row - Row1 == Row8 - p.row
    ensures OnBoard(q) <==> OnBoard(p)
  {
    Position(p.col, Row1 + Row8 - p.row)
  }

  /** The move shape stated by direction: same column, and a forward
      distance between 0 and 1, or 2 from the home row. */
  lemma MoveShapeByDirection(white: bool, start: Position, end: Position)
    ensures LegalMoveShape(white, start, end) <==>
              end.col == start.col &&
              0 <= (end.row - start.row) * Forward(white) <= (if start.row == HomeRow(white) then 2 else 1)
  {
  }

  /** A black move is the mirror image of a white one. */
  lemma BlackMirrorsWhite(start: Position, end: Position)
    ensures LegalMoveShape(false, start, end) == LegalMoveShape(true, Mirror(start), Mirror(end))
    ensures LegalCaptureShape(false, start, end) == LegalCaptureShape(true, Mirror(start), Mirror(end))
  {
  }

  /** Only negative distances are refused, so standing still passes the move shape. */
  lemma NullMoveAccepted(white: bool, p: Position)
    ensures LegalMoveShape(white, p, p)
  {
  }

  /** Backward moves and moves that change column fail the move shape. */
  lemma BackwardOrSidewaysRejected(white: bool, start: Position, end: Position)
    requires end.col != start.col || (end.row - start.row) * Forward(white) < 0
    ensures !LegalMoveShape(white, start, end)
  {
  }

  /** The straight advance and the diagonal capture never overlap. */
  lemma MoveAndCaptureDisjoint(white: bool, start: Position, end: Position)
    ensures !(LegalMoveShape(white, start, end) && LegalCaptureShape(white, start, end))
  {
  }

  /** A white pawn on B2: B3 and B4 are advances, B5 is not; A3 and C3 are
      captures, B3 is not. */
  lemma WhitePawnFromB2()
    ensures var b2 := Position(ColA + 1, Row2);
      && LegalMoveShape(true, b2, Position(ColA + 1, Row2 + 1))
      && LegalMoveShape(true, b2, Position(ColA + 1, Row2 + 2))
      && !LegalMoveShape(true, b2, Position(ColA + 1, Row2 + 3))
      && LegalCaptureShape(true, b2, Position(ColA, Row2 + 1))
      && LegalCaptureShape(true, b2, Position(ColA + 2, Row2 + 1))
      && !LegalCaptureShape(true, b2, Position(ColA + 1, Row2 + 1))
  {
  }
}
