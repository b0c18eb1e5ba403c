/** Board coordinates, as `Position` in Piece.h: a pair of characters, the
    column in 'A'..'H' and the row in '1'..'8'. The model keeps the character
    codes as integers, so off-board values such as the iterator's sentinel
    (-1,-1) and `find_by_piece`'s "not found" (0,0) are representable. */
module Positions {

  datatype Position = Position(col: int, row: int)

  const ColA: int := 'A' as int
  const ColH: int := 'H' as int
  const Row1: int := '1' as int
  const Row2: int := '2' as int
  const Row7: int := '7' as int
  const Row8: int := '8' as int

  /** The one-past-the-end position of the board iterator. */
  const Sentinel: Position := Position(-1, -1)

  /** What `find_by_piece` answers when no piece carries the designator. */
  const NotFound: Position := Position(0, 0)

  /** The bounds test shared by `add_piece` and `make_move`. */
  predicate OnBoard(p: Position) {
    ColA <= p.col <= ColH && Row1 <= p.row <= Row8
  }

  /** `ABS` from Helper.h. */
  function Abs(x: int): (r: nat)
    ensures r == x || r == -x
  {
    if x < 0 then -x else x
  }

  lemma SentinelsOffBoard()
    ensures !OnBoard(Sentinel) && !OnBoard(NotFound)
    ensures ColA == 65 && ColH == 72 && Row1 == 49 && Row8 == 56
  {
  }
}
