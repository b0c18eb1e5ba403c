/** Rook.cpp: the rook moves along a column or a row. */
module RookShape {
  import opened Positions

  /** `Rook::legal_move_shape`. */
  predicate LegalMoveShape(start: Position, end: Position) {
    start.col == end.col || start.row == end.row
  }

  lemma Symmetric(start: Position, end: Position)
    ensures LegalMoveShape(start, end) == LegalMoveShape(end, start)
  {
  }

  lemma NullMoveAccepted(p: Position)
    ensures LegalMoveShape(p, p)
  {
  }

  /** A move that changes both column and row is refused. */
  lemma DiagonalRejected(start: Position, end: Position)
    requires start.col != end.col && start.row != end.row
    ensures !LegalMoveShape(start, end)
  {
  }

  /** A rook on D4 reaches D8, D1, A4 and H4 but not E5. */
  lemma RookFromD4()
    ensures var d4 := Position(ColA + 3, Row1 + 3);
      && LegalMoveShape(d4, Position(ColA + 3, Row8))
      && LegalMoveShape(d4, Position(ColA + 3, Row1))
      && LegalMoveShape(d4, Position(ColA, Row1 + 3))
      && LegalMoveShape(d4, Position(ColH, Row1 + 3))
      && !LegalMoveShape(d4, Position(ColA + 4, Row1 + 4))
  {
  }
}
