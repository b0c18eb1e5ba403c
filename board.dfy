/** Board.cpp and Board.h: the sparse map from squares to pieces, its
    guarded insertion and removal, the lookups, the king-count check, the
    64-square iterator and the text dump. */
module BoardModel {
  import opened Wrappers
  import opened Positions
  import opened Pieces

  /** The contents of `occ`: a square is a key exactly when a piece stands on it. */
  type Occupancy = map<Position, Piece>

  /** Every key lies on the board (`add_piece` refuses any other square). */
  predicate AllOnBoard(occ: Occupancy) {
    forall p :: p in occ ==> OnBoard(p)
  }

  /** The answer of `operator()`: the piece on the square, or None for nullptr. */
  function PieceAt(occ: Occupancy, p: Position): Option<Piece> {
    if p in occ then Some(occ[p]) else None
  }

  // ---------------------------------------------------------------------
  // add_piece

  /** The three ways `add_piece` can refuse, in the order it checks them. */
  datatype BoardError = InvalidDesignator | PositionOccupied | InvalidPosition

  /** The board `add_piece` leaves behind, or the error it throws. */
  function Place(occ: Occupancy, p: Position, d: char): Result<Occupancy, BoardError> {
    match CreatePiece(d)
    case None => Failure(InvalidDesignator)
    case Some(piece) =>
      if p in occ then Failure(PositionOccupied)
      else if !OnBoard(p) then Failure(InvalidPosition)
      else Success(occ[p := piece])
  }

  /** `add_piece` reports an invalid designator before an occupied square,
      and an occupied square before an off-board one; when it succeeds the
      target square holds the designated piece and no other square changes,
      so the board stays within A-H/1-8. */
  lemma PlaceOutcome(occ: Occupancy, p: Position, d: char)
    ensures Place(occ, p, d) == Failure(InvalidDesignator) <==> CreatePiece(d).None?
    ensures Place(occ, p, d) == Failure(PositionOccupied) <==> CreatePiece(d).Some? && p in occ
    ensures Place(occ, p, d) == Failure(InvalidPosition) <==>
              CreatePiece(d).Some? && p !in occ && !OnBoard(p)
    ensures Place(occ, p, d).Success? ==>
              var occ' := Place(occ, p, d).value;
              && occ'.Keys == occ.Keys + {p}
              && ToAscii(occ'[p]) == d
              && (forall q :: q != p ==> PieceAt(occ', q) == PieceAt(occ, q))
              && (AllOnBoard(occ) ==> AllOnBoard(occ'))
  {
    match CreatePiece(d)
    case None =>
    case Some(piece) =>
      DesignatorRoundTrip(piece, d);
  }

  // ---------------------------------------------------------------------
  // The board iterator (Board.h)

  /** The iterator's successor (`const_iterator::operator++`): next column,
      then column A of the next row, and the sentinel after H8. */
  function Next(p: Position): Position {
    if p.col == ColH then
      if p.row == Row8 then Sentinel else Position(ColA, p.row + 1)
    else Position(p.col + 1, p.row)
  }

  /** The square the iterator stands on after `i` increments from `cbegin`. */
  function SquareAt(i: nat): (p: Position)
    requires i <= 64
    ensures i < 64 <==> OnBoard(p)
  {
    if i == 64 then Sentinel else Position(ColA + i % 8, Row1 + i / 8)
  }

  /** Where an on-board square comes in the iteration order. */
  function SquareIndex(p: Position): (i: nat)
    requires OnBoard(p)
    ensures i < 64 && SquareAt(i) == p
  {
    var i := (p.row - Row1) * 8 + (p.col - ColA);
    assert i % 8 == p.col - ColA && i / 8 == p.row - Row1;
    i
  }

  /** `n` increments from `p`. */
  function Advance(p: Position, n: nat): Position
    decreases n
  {
    if n == 0 then p else Advance(Next(p), n - 1)
  }

  lemma NextSquare(i: nat)
    requires i < 64
    ensures Next(SquareAt(i)) == SquareAt(i + 1)
  {
  }

  /** After `n <= 64` increments from A1 the iterator is on the n-th square
      of the order A1..H1, A2..H2, ..., H8, and after 64 on the sentinel. */
  lemma {:induction false} IterationOrder(n: nat)
    requires n <= 64
    ensures Advance(Position(ColA, Row1), n) == SquareAt(n)
  {
    if n > 0 {
      var p := Position(ColA, Row1);
      assert SquareAt(0) == p;
      AdvanceSquares(0, n);
    }
  }

  lemma {:induction false} AdvanceSquares(i: nat, n: nat)
    requires i + n <= 64
    ensures Advance(SquareAt(i), n) == SquareAt(i + n)
    decreases n
  {
    if n > 0 {
      NextSquare(i);
      AdvanceSquares(i + 1, n - 1);
    }
  }

  /** The loop `for (it = cbegin(); it != cend(); ++it)` stops after exactly
      64 increments, having visited every on-board square exactly once. */
  lemma IterationCoversBoard()
    ensures Advance(Position(ColA, Row1), 64) == Sentinel
    ensures forall n :: 0 <= n < 64 ==> Advance(Position(ColA, Row1), n) != Sentinel
    ensures forall i, j :: 0 <= i < j < 64 ==> SquareAt(i) != SquareAt(j)
    ensures forall p :: OnBoard(p) ==> exists i :: 0 <= i < 64 && SquareAt(i) == p
  {
    IterationOrder(64);
    forall n | 0 <= n < 64
      ensures Advance(Position(ColA, Row1), n) != Sentinel
    {
      IterationOrder(n);
    }
    forall p | OnBoard(p)
      ensures exists i :: 0 <= i < 64 && SquareAt(i) == p
    {
      assert SquareAt(SquareIndex(p)) == p;
    }
  }

  /** `Board::const_iterator`: a square that `Increment` moves forward. */
  class BoardIterator {
    var pos: Position

    constructor (initial: Position)
      ensures pos == initial
    {
      pos := initial;
    }

    /** `operator++`. */
    method Increment()
      modifies this
      ensures pos == Next(old(pos))
    {
      var curCol := pos.col;
      var curRow := pos.row;
      if curCol == ColH {
        if curRow == Row8 {
          pos := Sentinel;
        } else {
          pos := Position(ColA, curRow + 1);
        }
      } else {
        pos := Position(curCol + 1, curRow);
      }
    }

    /** `operator==`: both coordinates agree. */
    predicate Equals(o: BoardIterator)
      reads this, o
      ensures Equals(o) <==> pos == o.pos
    {
      pos.col == o.pos.col && pos.row == o.pos.row
    }

    /** `operator!=`. */
    predicate NotEquals(o: BoardIterator)
      reads this, o
      ensures NotEquals(o) <==> pos != o.pos
    {
      !Equals(o)
    }

    function CurrentPos(): Position
      reads this
    {
      pos
    }
  }

  // ---------------------------------------------------------------------
  // find_by_piece

  /** The square visited `i`-th by a walk over the keys of `occ` in the
      map's order, restricted to the board: by column, then by row. */
  function KeyAt(i: nat): (p: Position)
    requires i < 64
    ensures OnBoard(p)
  {
    Position(ColA + i / 8, Row1 + i % 8)
  }

  /** The map's key order: column first, then row. */
  predicate KeyBefore(p: Position, q: Position) {
    p.col < q.col || (p.col == q.col && p.row < q.row)
  }

  function KeyIndex(p: Position): (i: nat)
    requires OnBoard(p)
    ensures i < 64 && KeyAt(i) == p
  {
    var i := (p.col - ColA) * 8 + (p.row - Row1);
    assert i % 8 == p.row - Row1 && i / 8 == p.col - ColA;
    i
  }

  predicate HasDesignator(occ: Occupancy, p: Position, d: char) {
    p in occ && ToAscii(occ[p]) == d
  }

  /** The first key from position `i` on whose piece has designator `d`. */
  function FindFrom(occ: Occupancy, d: char, i: nat): Position
    requires i <= 64
    decreases 64 - i
  {
    if i == 64 then NotFound
    else if HasDesignator(occ, KeyAt(i), d) then KeyAt(i)
    else FindFrom(occ, d, i + 1)
  }

  /** What `find_by_piece` returns. */
  function Find(occ: Occupancy, d: char): Position {
    FindFrom(occ, d, 0)
  }

  lemma {:induction false} FindFromSpec(occ: Occupancy, d: char, i: nat)
    requires i <= 64
    ensures var r := FindFrom(occ, d, i);
      && (r == NotFound ==> forall j :: i <= j < 64 ==> !HasDesignator(occ, KeyAt(j), d))
      && (r != NotFound ==> OnBoard(r) && KeyIndex(r) >= i && HasDesignator(occ, r, d) &&
                            forall j :: i <= j < KeyIndex(r) ==> !HasDesignator(occ, KeyAt(j), d))
    decreases 64 - i
  {
    if i < 64 && !HasDesignator(occ, KeyAt(i), d) {
      FindFromSpec(occ, d, i + 1);
    }
  }

  /** `find_by_piece(d)` returns (0,0) exactly when no piece has designator
      `d`; otherwise a square holding such a piece, the first in key order. */
  lemma FindSpec(occ: Occupancy, d: char)
    requires AllOnBoard(occ)
    ensures var r := Find(occ, d);
      && (r == NotFound <==> forall p :: p in occ ==> ToAscii(occ[p]) != d)
      && (r != NotFound ==> r in occ && ToAscii(occ[r]) == d &&
                            forall q :: HasDesignator(occ, q, d) ==> q == r || KeyBefore(r, q))
  {
    var r := Find(occ, d);
    FindFromSpec(occ, d, 0);
    if r == NotFound {
      forall p | p in occ
        ensures ToAscii(occ[p]) != d
      {
        assert KeyAt(KeyIndex(p)) == p;
      }
    } else {
      forall q | HasDesignator(occ, q, d)
        ensures q == r || KeyBefore(r, q)
      {
        var j := KeyIndex(q);
        assert KeyAt(j) == q;
        assert j >= KeyIndex(r);
      }
    }
  }

  /** With exactly one piece carrying `d`, `find_by_piece` finds that one. */
  lemma FindUnique(occ: Occupancy, d: char, p: Position)
    requires AllOnBoard(occ)
    requires HasDesignator(occ, p, d)
    requires forall q :: HasDesignator(occ, q, d) ==> q == p
    ensures Find(occ, d) == p
  {
    FindSpec(occ, d);
    assert p in occ && ToAscii(occ[p]) == d;
    assert Find(occ, d) != NotFound;
    assert HasDesignator(occ, Find(occ, d), d);
  }

  // ---------------------------------------------------------------------
  // has_valid_kings

  /** The squares whose piece has designator `d`. */
  function WithDesignator(occ: Occupancy, d: char): set<Position> {
    set p | p in occ && ToAscii(occ[p]) == d
  }

  /** A valid board has exactly one white king and exactly one black king. */
  predicate KingsValid(occ: Occupancy) {
    |WithDesignator(occ, 'K')| == 1 && |WithDesignator(occ, 'k')| == 1
  }

  /** On a valid board `find_by_piece` locates each king. */
  lemma KingsValidLocates(occ: Occupancy, white: bool)
    requires AllOnBoard(occ) && KingsValid(occ)
    ensures var k := Find(occ, if white then 'K' else 'k');
      k in occ && occ[k] == Piece(King, white)
  {
    var d := if white then 'K' else 'k';
    FindSpec(occ, d);
    var s := WithDesignator(occ, d);
    var k :| k in s;
    assert s == {k} by {
      assert |s - {k}| == 0;
    }
    assert Find(occ, d) != NotFound;
    DesignatorRoundTrip(Piece(King, white), d);
    DesignatorRoundTrip(occ[Find(occ, d)], d);
  }

  // ---------------------------------------------------------------------
  // operator<< (the board part)

  /** What `operator<<` writes for a square: its designator, or '-'. */
  function SquareChar(occ: Occupancy, p: Position): char {
    if p in occ then ToAscii(occ[p]) else '-'
  }

  /** The square behind character `i` of the text form: nine characters a
      line (the ninth, column 'I', is the line break), row 8 first. */
  function GridPos(i: nat): Position
    requires i < 72
  {
    Position(ColA + i % 9, Row8 - i / 9)
  }

  function DumpChar(occ: Occupancy, i: nat): char
    requires i < 72
  {
    if i % 9 == 8 then '\n' else SquareChar(occ, GridPos(i))
  }

  /** The text `operator<<` writes for a board. */
  function Dump(occ: Occupancy): seq<char> {
    seq(72, i requires 0 <= i < 72 => DumpChar(occ, i))
  }

  /** The dump is 8 lines of 8 characters, row 8 first, each square's
      designator or '-' when it is empty. */
  lemma DumpLayout(occ: Occupancy, line: nat, c: nat)
    requires line < 8 && c < 8
    ensures |Dump(occ)| == 72
    ensures Dump(occ)[9 * line + 8] == '\n'
    ensures Dump(occ)[9 * line + c] == SquareChar(occ, Position(ColA + c, Row8 - line))
  {
    GridIndex(line, c);
    GridIndex(line, 8);
  }

  lemma GridIndex(line: nat, c: nat)
    requires line < 8 && c < 9
    ensures (9 * line + c) % 9 == c && (9 * line + c) / 9 == line
    ensures GridPos(9 * line + c) == Position(ColA + c, Row8 - line)
  {
  }

  // ---------------------------------------------------------------------
  // The Board class

  class Board {
    /** The sparse map (`occ` in Board.h). */
    var occ: Occupancy

    ghost predicate Valid()
      reads this
    {
      AllOnBoard(occ)
    }

    constructor ()
      ensures Valid() && occ == map[]
    {
      occ := map[];
    }

    /** The copy constructor: `operator=` into a freshly made board, adding
        a piece with the same designator on every occupied square. */
    constructor Copy(other: Board)
      requires other.Valid()
      ensures Valid() && occ == other.occ
    {
      occ := map[];
      new;
      var it := other.CBegin();
      var last := other.CEnd();
      ghost var i := 0;
      while it.NotEquals(last)
        invariant 0 <= i <= 64 && it.pos == SquareAt(i) && last.pos == Sentinel
        invariant Valid()
        invariant occ == VisitedPart(other.occ, i)
        decreases 64 - i
      {
        var pos := it.CurrentPos();
        var piece := other.Lookup(pos);
        VisitedStep(other.occ, i);
        if piece.Some? {
          var r := AddPiece(pos, ToAscii(piece.value));
          DesignatorRoundTrip(piece.value, ToAscii(piece.value));
        }
        it.Increment();
        NextSquare(i);
        i := i + 1;
      }
      VisitedAll(other.occ);
    }

    /** `cbegin`: an iterator on A1. */
    method CBegin() returns (it: BoardIterator)
      ensures fresh(it) && it.pos == Position(ColA, Row1) && it.pos == SquareAt(0)
    {
      it := new BoardIterator(Position('A' as int, '1' as int));
    }

    /** `cend`: an iterator on the sentinel (-1,-1). */
    method CEnd() returns (it: BoardIterator)
      ensures fresh(it) && it.pos == Sentinel && it.pos == SquareAt(64)
    {
      it := new BoardIterator(Position(-1, -1));
    }

    /** `operator()`: a walk over the entries comparing keys. */
    method Lookup(position: Position) returns (r: Option<Piece>)
      ensures position in occ ==> r == Some(occ[position])
      ensures position !in occ ==> r == None
    {
      var rest := occ.Keys;
      while rest != {}
        invariant rest <= occ.Keys
        invariant position in occ ==> position in rest
        decreases rest
      {
        var key :| key in rest;
        if key == position {
          return Some(occ[key]);
        }
        rest := rest - {key};
      }
      return None;
    }

    /** `find_by_piece`: the entries are visited in key order; because every
        key is on the board, that is the walk over `KeyAt(0..63)`. */
    method FindByPiece(designator: char) returns (r: Position)
      ensures r == Find(occ, designator)
    {
      var i := 0;
      while i < 64
        invariant 0 <= i <= 64
        invariant Find(occ, designator) == FindFrom(occ, designator, i)
      {
        var key := KeyAt(i);
        if key in occ && ToAscii(occ[key]) == designator {
          return key;
        }
        i := i + 1;
      }
      return Position(0, 0);
    }

    /** `add_piece`. */
    method AddPiece(position: Position, designator: char) returns (r: Outcome<BoardError>)
      requires Valid()
      modifies this
      ensures Valid()
      ensures Place(old(occ), position, designator).Success? ==>
                r == Pass && occ == Place(old(occ), position, designator).value
      ensures Place(old(occ), position, designator).Failure? ==>
                r == Fail(Place(old(occ), position, designator).error) && occ == old(occ)
    {
      var piece := CreatePiece(designator);
      if piece.None? {
        return Fail(InvalidDesignator);
      }
      var existing := Lookup(position);
      if existing.Some? {
        return Fail(PositionOccupied);
      }
      if position.col > ColH || position.col < ColA || position.row < Row1 || position.row > Row8 {
        return Fail(InvalidPosition);
      }
      occ := occ[position := piece.value];
      r := Pass;
    }

    /** `remove_piece`: erasing an absent key changes nothing. */
    method RemovePiece(position: Position)
      requires Valid()
      modifies this
      ensures Valid()
      ensures occ == old(occ) - {position}
      ensures position !in occ
      ensures forall q :: q != position ==> PieceAt(occ, q) == PieceAt(old(occ), q)
      ensures position !in old(occ) ==> occ == old(occ)
    {
      occ := occ - {position};
    }

    /** `remove_all`. */
    method RemoveAll()
      modifies this
      ensures Valid() && occ == map[]
    {
      occ := map[];
    }

    /** `has_valid_kings`: counts the `K` and `k` entries. */
    method HasValidKings() returns (r: bool)
      ensures r == KingsValid(occ)
    {
      var whiteKings, blackKings := 0, 0;
      var rest := occ.Keys;
      while rest != {}
        invariant rest <= occ.Keys
        invariant whiteKings == |WithDesignator(occ, 'K') - rest|
        invariant blackKings == |WithDesignator(occ, 'k') - rest|
        decreases rest
      {
        var key :| key in rest;
        var rest' := rest - {key};
        var c := ToAscii(occ[key]);
        CountStep(occ, 'K', rest, key);
        CountStep(occ, 'k', rest, key);
        if c == 'K' {
          whiteKings := whiteKings + 1;
        } else if c == 'k' {
          blackKings := blackKings + 1;
        }
        rest := rest';
      }
      r := whiteKings == 1 && blackKings == 1;
    }

    /** `operator<<`: rows 8 down to 1, columns A to H, a line break after each row. */
    method Write() returns (s: seq<char>)
      ensures s == Dump(occ)
    {
      s := [];
      var r := Row8;
      while r >= Row1
        invariant Row1 - 1 <= r <= Row8
        invariant s == Dump(occ)[..9 * (Row8 - r)]
      {
        var c := ColA;
        while c <= ColH
          invariant ColA <= c <= ColH + 1
          invariant s == Dump(occ)[..9 * (Row8 - r) + (c - ColA)]
        {
          var piece := Lookup(Position(c, r));
          GridIndex(Row8 - r, c - ColA);
          assert Dump(occ)[..9 * (Row8 - r) + (c - ColA) + 1] ==
                 Dump(occ)[..9 * (Row8 - r) + (c - ColA)] + [Dump(occ)[9 * (Row8 - r) + (c - ColA)]];
          if piece.Some? {
            s := s + [ToAscii(piece.value)];
          } else {
            s := s + ['-'];
          }
          c := c + 1;
        }
        GridIndex(Row8 - r, 8);
        assert Dump(occ)[..9 * (Row8 - r) + 9] ==
               Dump(occ)[..9 * (Row8 - r) + 8] + [Dump(occ)[9 * (Row8 - r) + 8]];
        s := s + ['\n'];
        r := r - 1;
      }
      assert Dump(occ)[..72] == Dump(occ);
    }
  }

  /** The part of `occ` on the first `i` squares of the iteration order. */
  function VisitedPart(occ: Occupancy, i: nat): Occupancy {
    map p | p in occ && OnBoard(p) && SquareIndex(p) < i :: occ[p]
  }

  lemma VisitedStep(occ: Occupancy, i: nat)
    requires i < 64
    ensures SquareAt(i) in occ ==>
              VisitedPart(occ, i + 1) == VisitedPart(occ, i)[SquareAt(i) := occ[SquareAt(i)]]
    ensures SquareAt(i) !in occ ==> VisitedPart(occ, i + 1) == VisitedPart(occ, i)
    ensures SquareAt(i) !in VisitedPart(occ, i) && AllOnBoard(VisitedPart(occ, i))
  {
    assert SquareIndex(SquareAt(i)) == i;
  }

  lemma VisitedAll(occ: Occupancy)
    requires AllOnBoard(occ)
    ensures VisitedPart(occ, 64) == occ
  {
  }

  lemma CountStep(occ: Occupancy, d: char, rest: set<Position>, key: Position)
    requires key in rest
    ensures |WithDesignator(occ, d) - (rest - {key})| ==
            |WithDesignator(occ, d) - rest| + (if key in occ && ToAscii(occ[key]) == d then 1 else 0)
  {
    var w := WithDesignator(occ, d);
    if key in occ && ToAscii(occ[key]) == d {
      assert w - (rest - {key}) == (w - rest) + {key};
    } else {
      assert w - (rest - {key}) == w - rest;
    }
  }
}
