/** Knight.cpp: the knight's L-shaped jump, decided by one product of the deltas. */
module KnightShape {
  import opened Positions

  /** `Knight::legal_move_shape`: |column delta * row delta| = 2. */
  predicate LegalMoveShape(start: Position, end: Position) {
    Abs((start.col - end.col) * (start.row - end.row)) == 2
  }

  /** The product test admits exactly the two L shapes: one column and two
      rows, or two columns and one row. */
  lemma LShape(start: Position, end: Position)
    ensures LegalMoveShape(start, end) <==>
              (Abs(start.col - end.col) == 1 && Abs(start.row - end.row) == 2) ||
              (Abs(start.col - end.col) == 2 && Abs(start.row - end.row) == 1)
  {
    var a, b := Abs(start.col - end.col), Abs(start.row - end.row);
    assert Abs((start.col - end.col) * (start.row - end.row)) == a * b by {
      ProductAbs(start.col - end.col, start.row - end.row);
    }
    if a * b == 2 {
      SmallProduct(a, b);
    }
  }

  lemma ProductAbs(x: int, y: int)
    ensures Abs(x * y) == Abs(x) * Abs(y)
  {
    if x < 0 && y < 0 {
      assert x * y == (-x) * (-y);
    } else if x < 0 {
      assert -(x * y) == (-x) * y;
    } else if y < 0 {
      assert -(x * y) == x * (-y);
    }
  }

  lemma SmallProduct(a: nat, b: nat)
    requires a * b == 2
    ensures (a == 1 && b == 2) || (a == 2 && b == 1)
  {
    if a == 2 {
      assert 2 * b == 2;
    }
  }

  lemma NullMoveRejected(p: Position)
    ensures !LegalMoveShape(p, p)
  {
  }

  lemma Symmetric(start: Position, end: Position)
    ensures LegalMoveShape(start, end) == LegalMoveShape(end, start)
  {
    assert (start.col - end.col) * (start.row - end.row) == (end.col - start.col) * (end.row - start.row);
  }

  /** From D4 the knight reaches exactly B3, B5, C2, C6, E2, E6, F3 and F5. */
  lemma KnightFromD4(end: Position)
    ensures LegalMoveShape(Position(ColA + 3, Row1 + 3), end) <==>
              end in {Position(ColA + 1, Row1 + 2), Position(ColA + 1, Row1 + 4),
                      Position(ColA + 2, Row1 + 1), Position(ColA + 2, Row1 + 5),
                      Position(ColA + 4, Row1 + 1), Position(ColA + 4, Row1 + 5),
                      Position(ColA + 5, Row1 + 2), Position(ColA + 5, Row1 + 4)}
  {
    LShape(Position(ColA + 3, Row1 + 3), end);
  }
}
