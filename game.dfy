/** Game.cpp and Game.h: the game object, a board plus the side to move,
    with its operations as methods. Each method is proved against the
    value-level definition of GameRules or GameCodec that states what it
    computes. */
module ChessGame {
  import opened Wrappers
  import opened Positions
  import opened Pieces
  import opened BoardModel
  import opened GameRules
  import opened GameCodec

  class Game {
    var board: Board
    /** `is_white_turn`. */
    var isWhiteTurn: bool

    ghost predicate Valid()
      reads this, board
    {
      board.Valid()
    }

    /** The game as a value. */
    function State(): GameState
      reads this, board
    {
      GameState(board.occ, isWhiteTurn)
    }

    /** The default constructor: the standard opening position, white to move. */
    constructor ()
      ensures Valid() && fresh(board) && isWhiteTurn
      ensures forall p :: PieceAt(board.occ, p) == InitialPieceAt(p)
    {
      board := new Board();
      isWhiteTurn := true;
      new;
      PlacePawns();
      PlaceBackRank();
    }

    /** The constructor's first loop: a white and a black pawn on each
        column, on rows 2 and 7. */
    method PlacePawns()
      requires Valid() && board.occ == map[]
      modifies board
      ensures Valid() && forall p :: PieceAt(board.occ, p) == PawnsPlaced(8, p)
    {
      var i := 0;
      while i < 8
        invariant 0 <= i <= 8
        invariant board.Valid()
        invariant forall p :: PieceAt(board.occ, p) == PawnsPlaced(i, p)
      {
        ghost var before := board.occ;
        assert PieceAt(before, Position(ColA + i, Row2)) == None;
        assert PieceAt(before, Position(ColA + i, Row7)) == None;
        var r := board.AddPiece(Position(ColA + i, Row2), 'P');
        assert board.occ == before[Position(ColA + i, Row2) := Piece(Pawn, true)];
        r := board.AddPiece(Position(ColA + i, Row7), 'p');
        assert board.occ == before[Position(ColA + i, Row2) := Piece(Pawn, true)][Position(ColA + i, Row7) := Piece(Pawn, false)];
        forall p
          ensures PieceAt(board.occ, p) == PawnsPlaced(i + 1, p)
        {
          assert PieceAt(before, p) == PawnsPlaced(i, p);
        }
        i := i + 1;
      }
    }

    /** The constructor's sixteen back-rank additions, in order. */
    method PlaceBackRank()
      requires Valid() && forall p :: PieceAt(board.occ, p) == PawnsPlaced(8, p)
      modifies board
      ensures Valid() && forall p :: PieceAt(board.occ, p) == InitialPieceAt(p)
    {
      var k := 0;
      while k < BackRankCalls
        invariant 0 <= k <= BackRankCalls
        invariant board.Valid()
        invariant forall p :: PieceAt(board.occ, p) == SetUpTo(k, p)
      {
        ghost var before := board.occ;
        var pos := BackRankSetup(k).0;
        BackRankEntry(k);
        assert PieceAt(before, pos) == SetUpTo(k, pos);
        var r := board.AddPiece(pos, BackRankSetup(k).1);
        forall p
          ensures PieceAt(board.occ, p) == SetUpTo(k + 1, p)
        {
          assert PieceAt(before, p) == SetUpTo(k, p);
          if OnBackRank(p) && BackRankOrder(p) == k {
            BackRankOrderInjective(p, pos);
          }
        }
        k := k + 1;
      }
      forall p
        ensures PieceAt(board.occ, p) == InitialPieceAt(p)
      {
        assert PieceAt(board.occ, p) == SetUpTo(BackRankCalls, p);
      }
    }

    /** The copy constructor (`*this = game`): a fresh board copied square
        by square, and the same side to move. */
    constructor Copy(game: Game)
      requires game.Valid()
      ensures Valid() && fresh(board) && State() == game.State()
    {
      board := new Board.Copy(game.board);
      isWhiteTurn := game.isWhiteTurn;
    }

    /** `turn_white`. */
    function TurnWhite(): (r: bool)
      reads this
      ensures r <==> isWhiteTurn
    {
      isWhiteTurn
    }

    /** `is_valid_game`: exactly one king of each colour. */
    method IsValidGame() returns (r: bool)
      ensures r == KingsValid(board.occ)
    {
      r := board.HasValidKings();
    }

    /** `is_path_clear`: the three loops of the source; the cursor's first
        square is never looked at, nor is the square where it stops. */
    method IsPathClear(start: Position, end: Position) returns (r: bool)
      ensures r == GameRules.IsPathClear(board.occ, start, end)
    {
      var startCol, startRow := start.col, start.row;
      if start.row == end.row || start.col == end.col {
        if start.col == end.col {
          while startRow != end.row
            invariant if start.row <= end.row then start.row <= startRow <= end.row else end.row <= startRow <= start.row
            invariant GameRules.IsPathClear(board.occ, start, end) ==
                      NoneOccupied(board.occ, Pending(RowWalk(Position(startCol, startRow), end), startRow == start.row))
            invariant startCol == start.col
            decreases Abs(end.row - startRow)
          {
            var piece := board.Lookup(Position(startCol, startRow));
            if startRow != start.row && piece.Some? {
              return false;
            }
            startRow := if startRow < end.row then startRow + 1 else startRow - 1;
          }
        } else {
          while startCol != end.col
            invariant if start.col <= end.col then start.col <= startCol <= end.col else end.col <= startCol <= start.col
            invariant GameRules.IsPathClear(board.occ, start, end) ==
                      NoneOccupied(board.occ, Pending(ColumnWalk(Position(startCol, startRow), end, false), startCol == start.col))
            invariant startRow == start.row
            decreases Abs(end.col - startCol)
          {
            var piece := board.Lookup(Position(startCol, startRow));
            if startCol != start.col && piece.Some? {
              return false;
            }
            startCol := if startCol < end.col then startCol + 1 else startCol - 1;
          }
        }
      } else {
        while startCol != end.col
          invariant if start.col <= end.col then start.col <= startCol <= end.col else end.col <= startCol <= start.col
          invariant GameRules.IsPathClear(board.occ, start, end) ==
                    NoneOccupied(board.occ, Pending(ColumnWalk(Position(startCol, startRow), end, true), startCol == start.col))
          invariant startCol == start.col ==> startRow == start.row
          decreases Abs(end.col - startCol)
        {
          var piece := board.Lookup(Position(startCol, startRow));
          if startCol != start.col && piece.Some? {
            return false;
          }
          startCol := if startCol < end.col then startCol + 1 else startCol - 1;
          startRow := if startRow < end.row then startRow + 1 else startRow - 1;
        }
      }
      return true;
    }

    /** `in_check`: find the king, then walk the board with the iterator
        looking for an enemy piece that threatens it. */
    method InCheck(white: bool) returns (r: bool)
      ensures r == GameRules.InCheck(board.occ, white)
    {
      var designator := if white then 'K' else 'k';
      var kingPos := board.FindByPiece(designator);
      var it := board.CBegin();
      var last := board.CEnd();
      ghost var i := 0;
      while it.NotEquals(last)
        invariant 0 <= i <= 64 && it.pos == SquareAt(i) && last.pos == Sentinel
        invariant forall j :: 0 <= j < i ==> !Threatens(board.occ, white, SquareAt(j), kingPos)
        decreases 64 - i
      {
        var pos := it.CurrentPos();
        var threat := ThreatensKing(pos, white, kingPos);
        if threat {
          assert OnBoard(pos);
          return true;
        }
        it.Increment();
        NextSquare(i);
        i := i + 1;
      }
      forall p | p in board.occ && OnBoard(p)
        ensures !Threatens(board.occ, white, p, kingPos)
      {
        assert SquareAt(SquareIndex(p)) == p;
      }
      return false;
    }

    /** The body of `in_check`'s scan: the piece on `pos` is an enemy of
        the side `white` with a capture shape and a clear path to `kingPos`. */
    method ThreatensKing(pos: Position, white: bool, kingPos: Position) returns (b: bool)
      ensures b == Threatens(board.occ, white, pos, kingPos)
    {
      var piece := board.Lookup(pos);
      if piece.Some? && piece.value.white != white {
        if LegalCaptureShape(piece.value, pos, kingPos) {
          b := IsPathClear(pos, kingPos);
          return;
        }
      }
      return false;
    }

    /** `would_check`: on a copy of the game, add the piece on `start` to
        `end`, empty `start`, and ask whether the side to move is in check.
        The source calls it only from `make_move`, after the target square
        has been emptied; `add_piece` would throw on any other square. */
    method WouldCheck(start: Position, end: Position) returns (r: bool)
      requires Valid() && start in board.occ && OnBoard(end) && end !in board.occ
      ensures r == GameRules.WouldCheck(board.occ, isWhiteTurn, start, end)
    {
      var newGame := new Game.Copy(this);
      var startPiece := newGame.board.Lookup(start);
      var added := newGame.board.AddPiece(end, ToAscii(startPiece.value));
      DesignatorRoundTrip(startPiece.value, ToAscii(startPiece.value));
      newGame.board.RemovePiece(start);
      assert newGame.board.occ == Relocate(board.occ, start, end);
      r := newGame.InCheck(newGame.TurnWhite());
    }

    /** `make_move`: the validation chain, then the capture, the self-check
        test, promotion, the relocation and the change of turn. */
    method MakeMove(start: Position, end: Position) returns (r: Outcome<MoveError>)
      requires Valid()
      modifies this, board
      ensures Valid() && board == old(board)
      ensures MoveResult(State(), r) == Move(old(State()), start, end)
    {
      ghost var g := State();
      var refusal, startPiece, endPiece := ValidateMove(start, end);
      if refusal.Some? {
        return Fail(refusal.value);
      }
      AdmissibleMove(g, start, end);
      if endPiece.Some? {
        board.RemovePiece(end);
      }
      assert board.occ == g.board - {end};
      var check := WouldCheck(start, end);
      if check {
        return Fail(MoveCausesCheck);
      }
      assert FinishMove(g, start, end) == MoveResult(GameState(MovedBoard(board.occ, isWhiteTurn, start, end, startPiece), !g.whiteTurn), Pass);
      PlaceMover(start, end, startPiece);
      return Pass;
    }

    /** The end of a successful `make_move`: the mover (or, on promotion, a
        queen of its colour) is added on `end`, `start` is emptied and the
        turn passes. */
    method PlaceMover(start: Position, end: Position, startPiece: Piece)
      requires Valid() && start != end && start in board.occ && board.occ[start] == startPiece
      requires OnBoard(end) && end !in board.occ
      modifies this, board
      ensures Valid() && board == old(board)
      ensures State() == GameState(MovedBoard(old(board.occ), old(isWhiteTurn), start, end, startPiece), !old(isWhiteTurn))
    {
      var designator;
      if CheckPromotion(board.occ, start, end) {
        designator := if TurnWhite() then 'Q' else 'q';
      } else {
        designator := ToAscii(startPiece);
      }
      ghost var placed := if CheckPromotion(board.occ, start, end) then Piece(Queen, isWhiteTurn) else startPiece;
      DesignatorRoundTrip(placed, designator);
      var added := board.AddPiece(end, designator);
      board.RemovePiece(start);
      isWhiteTurn := !isWhiteTurn;
    }

    /** The exceptions `make_move` throws before it changes anything: the
        first failed test of the chain, or none, together with the pieces
        it looked up at `start` and `end`. */
    method ValidateMove(start: Position, end: Position)
      returns (refusal: Option<MoveError>, startPiece: Piece, endPiece: Option<Piece>)
      requires Valid()
      ensures refusal.None? <==> Admissible(State(), start, end)
      ensures refusal.Some? ==> Move(State(), start, end) == MoveResult(State(), Fail(refusal.value))
      ensures refusal.None? ==> board.occ[start] == startPiece && endPiece == PieceAt(board.occ, end)
    {
      startPiece := Piece(Pawn, true);
      endPiece := None;
      if start.col > ColH || start.col < ColA || start.row < Row1 || start.row > Row8 {
        return Some(StartNotOnBoard), startPiece, endPiece;
      }
      if end.col > ColH || end.col < ColA || end.row < Row1 || end.row > Row8 {
        return Some(EndNotOnBoard), startPiece, endPiece;
      }
      var found := board.Lookup(start);
      if found.None? {
        return Some(NoPieceAtStart), startPiece, endPiece;
      }
      startPiece := found.value;
      if startPiece.white != TurnWhite() {
        return Some(TurnMismatch), startPiece, endPiece;
      }
      endPiece := board.Lookup(end);
      if endPiece.Some? {
        if endPiece.value.white == TurnWhite() {
          return Some(CaptureOwnPiece), startPiece, endPiece;
        }
        if !LegalCaptureShape(startPiece, start, end) {
          return Some(IllegalCaptureShape), startPiece, endPiece;
        }
      } else {
        if !LegalMoveShape(startPiece, start, end) {
          return Some(IllegalMoveShape), startPiece, endPiece;
        }
      }
      if IsPathLinear(start, end) {
        var clear := IsPathClear(start, end);
        if !clear {
          return Some(PathNotClear), startPiece, endPiece;
        }
      }
      return None, startPiece, endPiece;
    }

    /** `is_possible_move`: try `make_move` from `pos` to every square, each
        time on a fresh copy of the game, until one does not throw. */
    method IsPossibleMove(pos: Position) returns (r: bool)
      requires Valid()
      ensures r == HasLegalMove(State(), pos)
    {
      ghost var g := State();
      var it := board.CBegin();
      var last := board.CEnd();
      ghost var i := 0;
      while it.NotEquals(last)
        invariant 0 <= i <= 64 && it.pos == SquareAt(i) && last.pos == Sentinel
        invariant NoMoveUpTo(g, pos, i)
        decreases 64 - i
      {
        var newGame := new Game.Copy(this);
        var outcome := newGame.MakeMove(pos, it.CurrentPos());
        if outcome == Pass {
          return true;
        }
        it.Increment();
        NextSquare(i);
        i := i + 1;
      }
      NoMoveFound(g, pos);
      return false;
    }

    /** The body of the scans in `in_mate` and `in_stalemate`: the square
        holds a piece of that colour that `is_possible_move` (or
        `prevent_check`, the same loop) can move. */
    method MovableAt(pos: Position, white: bool) returns (b: bool)
      requires Valid()
      ensures b == !Immobile(State(), white, pos)
    {
      var piece := board.Lookup(pos);
      b := false;
      if piece.Some? && piece.value.white == white {
        b := IsPossibleMove(pos);
      }
    }

    /** `in_mate`: in check, and no piece of that colour can move. */
    method InMate(white: bool) returns (r: bool)
      requires Valid()
      ensures r == GameRules.InMate(State(), white)
    {
      var check := InCheck(white);
      if !check {
        return false;
      }
      ghost var g := State();
      var it := board.CBegin();
      var last := board.CEnd();
      ghost var i := 0;
      while it.NotEquals(last)
        invariant 0 <= i <= 64 && it.pos == SquareAt(i) && last.pos == Sentinel
        invariant ImmobileUpTo(g, white, i)
        decreases 64 - i
      {
        var movable := MovableAt(it.CurrentPos(), white);
        if movable {
          ImmobileFound(g, white);
          return false;
        }
        it.Increment();
        NextSquare(i);
        i := i + 1;
      }
      ImmobileFound(g, white);
      return true;
    }

    /** `in_stalemate`: no piece of that colour can move. */
    method InStalemate(white: bool) returns (r: bool)
      requires Valid()
      ensures r == GameRules.InStalemate(State(), white)
    {
      ghost var g := State();
      var it := board.CBegin();
      var last := board.CEnd();
      ghost var i := 0;
      while it.NotEquals(last)
        invariant 0 <= i <= 64 && it.pos == SquareAt(i) && last.pos == Sentinel
        invariant ImmobileUpTo(g, white, i)
        decreases 64 - i
      {
        var movable := MovableAt(it.CurrentPos(), white);
        if movable {
          ImmobileFound(g, white);
          return false;
        }
        it.Increment();
        NextSquare(i);
        i := i + 1;
      }
      ImmobileFound(g, white);
      return true;
    }

    /** `point_value`: the sum of the values of that colour's pieces. */
    method PointValue(white: bool) returns (v: int)
      ensures v == Material(board.occ, white)
    {
      v := 0;
      var it := board.CBegin();
      var last := board.CEnd();
      ghost var i := 0;
      while it.NotEquals(last)
        invariant 0 <= i <= 64 && it.pos == SquareAt(i) && last.pos == Sentinel
        invariant v == MaterialUpTo(board.occ, white, i)
        decreases 64 - i
      {
        var piece := board.Lookup(it.CurrentPos());
        if piece.Some? && piece.value.white == white {
          v := v + Pieces.PointValue(piece.value);
        }
        it.Increment();
        NextSquare(i);
        i := i + 1;
      }
    }

    /** `operator>>`: empty the board, read 8 lines of 9 characters from
        the top row down, handing every character other than '-' and '\n'
        to `add_piece`, then read the turn character. `text` is what the
        stream delivers; `cursor` is the stream position. */
    method Read(text: seq<char>) returns (r: Outcome<ReadError>)
      requires Valid()
      modifies this, board
      ensures Valid() && board == old(board)
      ensures ReadResult(State(), r) == Load(text, old(State()))
    {
      board.RemoveAll();
      ghost var filled := Fill(text, 0, map[]);
      var cursor := 0;
      var row := Row8;
      while row >= Row1
        invariant Row1 - 1 <= row <= Row8
        invariant cursor == 9 * (Row8 - row)
        invariant board == old(board) && board.Valid() && isWhiteTurn == old(isWhiteTurn)
        invariant filled == Fill(text, cursor, board.occ)
      {
        var col := ColA;
        while col <= ColH + 1
          invariant ColA <= col <= ColH + 2
          invariant cursor == 9 * (Row8 - row) + (col - ColA)
          invariant board == old(board) && board.Valid() && isWhiteTurn == old(isWhiteTurn)
          invariant filled == Fill(text, cursor, board.occ)
        {
          var designator := CharAt(text, cursor);
          GridIndex(Row8 - row, col - ColA);
          assert GridPos(cursor) == Position(col, row);
          FillStep(text, cursor, board.occ);
          ghost var step := Place(board.occ, Position(col, row), designator);
          cursor := cursor + 1;
          if designator != '-' && designator != '\n' {
            var added := board.AddPiece(Position(col, row), designator);
            if added.Fail? {
              assert filled == Filled(board.occ, Some(step.error));
              return Fail(GridError(added.error));
            }
            assert board.occ == step.value;
          }
          col := col + 1;
        }
        row := row - 1;
      }
      var turn := CharAt(text, cursor);
      if turn != 'w' && turn != 'b' {
        return Fail(BadTurn);
      }
      isWhiteTurn := turn == 'w';
      return Pass;
    }

    /** `operator<<`: the board's dump and the turn character; reading it
        back into any game gives this game. */
    method Write() returns (s: seq<char>)
      requires Valid()
      ensures s == Serialize(State())
      ensures forall g :: Load(s, g) == ReadResult(State(), Pass)
    {
      var grid := board.Write();
      s := grid + [if TurnWhite() then 'w' else 'b'];
      forall g
        ensures Load(s, g) == ReadResult(State(), Pass)
      {
        RoundTrip(State(), g);
      }
    }
  }

  /** The board after a successful move with `mover` from `start` to an
      empty `end`. */
  function MovedBoard(occ: Occupancy, white: bool, start: Position, end: Position, mover: Piece): Occupancy
    requires start in occ
  {
    occ[end := if CheckPromotion(occ, start, end) then Piece(Queen, white) else mover] - {start}
  }

  /** The part of a walk the scan still has to look at: all of it, less its
      first square while the cursor has not left `start`. */
  function Pending(walk: seq<Position>, atStart: bool): seq<Position> {
    if atStart then Tail(walk) else walk
  }

  /** No `make_move` from `pos` to the first `n` squares of the iteration
      order succeeds. */
  ghost predicate NoMoveUpTo(g: GameState, pos: Position, n: nat)
    requires n <= 64
  {
    n == 0 || (NoMoveUpTo(g, pos, n - 1) && Move(g, pos, SquareAt(n - 1)).status != Pass)
  }

  lemma {:induction false} NoMoveUpToAt(g: GameState, pos: Position, n: nat, j: nat)
    requires j < n <= 64 && NoMoveUpTo(g, pos, n)
    ensures Move(g, pos, SquareAt(j)).status != Pass
  {
    if j < n - 1 {
      NoMoveUpToAt(g, pos, n - 1, j);
    }
  }

  lemma {:induction false} FirstMoveUpTo(g: GameState, pos: Position, n: nat) returns (j: nat)
    requires n <= 64 && !NoMoveUpTo(g, pos, n)
    ensures j < n && Move(g, pos, SquareAt(j)).status == Pass
  {
    if NoMoveUpTo(g, pos, n - 1) {
      j := n - 1;
    } else {
      j := FirstMoveUpTo(g, pos, n - 1);
    }
  }

  /** Trying the 64 squares of the iteration order finds every legal move. */
  lemma NoMoveFound(g: GameState, pos: Position)
    ensures NoMoveUpTo(g, pos, 64) <==> !HasLegalMove(g, pos)
  {
    if NoMoveUpTo(g, pos, 64) {
      forall sq | OnBoard(sq)
        ensures Move(g, pos, sq).status != Pass
      {
        NoMoveUpToAt(g, pos, 64, SquareIndex(sq));
      }
    } else {
      var j := FirstMoveUpTo(g, pos, 64);
      assert OnBoard(SquareAt(j));
    }
  }

  /** The square holds no piece of that colour, or one that cannot move. */
  ghost predicate Immobile(g: GameState, white: bool, p: Position) {
    p in g.board && g.board[p].white == white ==> !HasLegalMove(g, p)
  }
  /** No square among the first `n` of the iteration order holds a piece
      of that colour that can move. */
  ghost predicate ImmobileUpTo(g: GameState, white: bool, n: nat)
    requires n <= 64
  {
    n == 0 || (ImmobileUpTo(g, white, n - 1) && Immobile(g, white, SquareAt(n - 1)))
  }

  lemma {:induction false} ImmobileUpToAt(g: GameState, white: bool, n: nat, j: nat)
    requires j < n <= 64 && ImmobileUpTo(g, white, n)
    ensures Immobile(g, white, SquareAt(j))
  {
    if j < n - 1 {
      ImmobileUpToAt(g, white, n - 1, j);
    }
  }

  lemma {:induction false} FirstMobileUpTo(g: GameState, white: bool, n: nat) returns (j: nat)
    requires n <= 64 && !ImmobileUpTo(g, white, n)
    ensures j < n && !Immobile(g, white, SquareAt(j))
  {
    if ImmobileUpTo(g, white, n - 1) {
      j := n - 1;
    } else {
      j := FirstMobileUpTo(g, white, n - 1);
    }
  }

  /** Scanning the 64 squares of the iteration order decides the stalemate
      enumeration. */
  lemma ImmobileFound(g: GameState, white: bool)
    ensures ImmobileUpTo(g, white, 64) <==> InStalemate(g, white)
  {
    if ImmobileUpTo(g, white, 64) {
      forall p | OnBoard(p)
        ensures Immobile(g, white, p)
      {
        ImmobileUpToAt(g, white, 64, SquareIndex(p));
      }
    } else {
      var j := FirstMobileUpTo(g, white, 64);
      assert OnBoard(SquareAt(j));
    }
  }

  /** What stands on `p` once the constructor's loop has placed the pawns
      of the first `n` columns. */
  function PawnsPlaced(n: int, p: Position): Option<Piece> {
    if (p.row == Row2 || p.row == Row7) && ColA <= p.col < ColA + n then Some(Piece(Pawn, p.row == Row2)) else None
  }

  /** The default constructor's sixteen back-rank `add_piece` calls, in the
      order it makes them: the square and the designator of call `k`. */
  const BackRankCalls := 16

  function BackRankSetup(k: int): (Position, char)
    requires 0 <= k < BackRankCalls
  {
    if k == 0 then (Position(ColA + 0, Row1), 'R')
    else if k == 1 then (Position(ColA + 7, Row1), 'R')
    else if k == 2 then (Position(ColA + 0, Row8), 'r')
    else if k == 3 then (Position(ColA + 7, Row8), 'r')
    else if k == 4 then (Position(ColA + 1, Row1), 'N')
    else if k == 5 then (Position(ColA + 6, Row1), 'N')
    else if k == 6 then (Position(ColA + 1, Row8), 'n')
    else if k == 7 then (Position(ColA + 6, Row8), 'n')
    else if k == 8 then (Position(ColA + 2, Row1), 'B')
    else if k == 9 then (Position(ColA + 5, Row1), 'B')
    else if k == 10 then (Position(ColA + 2, Row8), 'b')
    else if k == 11 then (Position(ColA + 5, Row8), 'b')
    else if k == 12 then (Position(ColA + 3, Row1), 'Q')
    else if k == 13 then (Position(ColA + 4, Row1), 'K')
    else if k == 14 then (Position(ColA + 3, Row8), 'q')
    else (Position(ColA + 4, Row8), 'k')
  }

  predicate OnBackRank(p: Position) {
    OnBoard(p) && (p.row == Row1 || p.row == Row8)
  }

  /** Where a back-rank square comes among the constructor's additions:
      rooks, knights and bishops (white pair, then black pair), then
      Q, K, q, k. */
  function BackRankOrder(p: Position): int {
    var c := p.col - ColA;
    var black := if p.row == Row8 then 2 else 0;
    if c == 0 || c == 7 then black + (if c == 7 then 1 else 0)
    else if c == 1 || c == 6 then 4 + black + (if c == 6 then 1 else 0)
    else if c == 2 || c == 5 then 8 + black + (if c == 5 then 1 else 0)
    else 12 + black + (if c == 4 then 1 else 0)
  }

  lemma BackRankOrderInjective(p: Position, q: Position)
    requires OnBackRank(p) && OnBackRank(q) && BackRankOrder(p) == BackRankOrder(q)
    ensures p == q
  {
  }

  /** What stands on `p` after the pawn loop and the first `k` back-rank
      additions. */
  function SetUpTo(k: int, p: Position): Option<Piece> {
    if OnBackRank(p) then (if BackRankOrder(p) < k then InitialPieceAt(p) else None)
    else PawnsPlaced(8, p)
  }

  /** The table entry `k` is the `k`-th back-rank square, with the
      designator of its opening piece. */
  predicate EntryFits(k: int)
    requires 0 <= k < BackRankCalls
  {
    var (pos, d) := BackRankSetup(k);
    OnBackRank(pos) && BackRankOrder(pos) == k && CreatePiece(d) == InitialPieceAt(pos)
  }

  lemma BackRankEntry(k: int)
    requires 0 <= k < BackRankCalls
    ensures EntryFits(k)
  {
  }
}
