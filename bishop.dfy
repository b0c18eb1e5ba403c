/** Bishop.cpp: the bishop moves along a diagonal. */
module BishopShape {
  import opened Positions

  /** `Bishop::legal_move_shape`: equal column and row distances. */
  predicate LegalMoveShape(start: Position, end: Position) {
    Abs(start.col - end.col) == Abs(start.row - end.row)
  }

  lemma Symmetric(start: Position, end: Position)
    ensures LegalMoveShape(start, end) == LegalMoveShape(end, start)
  {
  }

  lemma NullMoveAccepted(p: Position)
    ensures LegalMoveShape(p, p)
  {
  }

  /** A non-zero move along a column or along a row is refused. */
  lemma StraightRejected(start: Position, end: Position)
    requires start != end
    requires start.col == end.col || start.row == end.row
    ensures !LegalMoveShape(start, end)
  {
  }

  /** A bishop on D4 reaches A1 and G7 but not D5. */
  lemma BishopFromD4()
    ensures var d4 := Position(ColA + 3, Row1 + 3);
      && LegalMoveShape(d4, Position(ColA, Row1))
      && LegalMoveShape(d4, Position(ColA + 6, Row1 + 6))
      && !LegalMoveShape(d4, Position(ColA + 3, Row1 + 4))
  {
  }
}
