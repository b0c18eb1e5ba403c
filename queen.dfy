/** Queen.cpp: the queen moves along a column, a row or a diagonal. */
module QueenShape {
  import opened Positions
  import RookShape
  import BishopShape

  /** `Queen::legal_move_shape`. */
  predicate LegalMoveShape(start: Position, end: Position) {
    if start.col == end.col || start.row == end.row then true
    else Abs(start.col - end.col) == Abs(start.row - end.row)
  }

  /** The queen's shape is the rook's shape or the bishop's shape. */
  lemma RookOrBishop(start: Position, end: Position)
    ensures LegalMoveShape(start, end) <==>
              RookShape.LegalMoveShape(start, end) || BishopShape.LegalMoveShape(start, end)
  {
  }

  lemma Symmetric(start: Position, end: Position)
    ensures LegalMoveShape(start, end) == LegalMoveShape(end, start)
  {
  }
}
