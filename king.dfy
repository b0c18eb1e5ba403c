/** King.cpp: the king moves at most one square in each direction. */
module KingShape {
  import opened Positions

  /** `King::legal_move_shape`. */
  predicate LegalMoveShape(start: Position, end: Position) {
    Abs(start.col - end.col) < 2 && Abs(start.row - end.row) < 2
  }

  lemma Symmetric(start: Position, end: Position)
    ensures LegalMoveShape(start, end) == LegalMoveShape(end, start)
  {
  }

  /** The shape admits standing still; `make_move` refuses that move later,
      as a capture of the mover's own piece. */
  lemma NullMoveAccepted(p: Position)
    ensures LegalMoveShape(p, p)
  {
  }

  /** From D4 the shape admits exactly C3..E5 (the eight neighbours and D4
      itself); C2 is refused. */
  lemma KingFromD4(end: Position)
    ensures var d4 := Position(ColA + 3, Row1 + 3);
      LegalMoveShape(d4, end) <==> ColA + 2 <= end.col <= ColA + 4 && Row1 + 2 <= end.row <= Row1 + 4
    ensures !LegalMoveShape(Position(ColA + 3, Row1 + 3), Position(ColA + 2, Row1 + 1))
  {
  }
}
