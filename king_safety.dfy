/** Whether a king can be lost. As written, `in_check` (Game.cpp:274-278)
    asks `is_path_clear` also of a knight, so a king may step into a
    knight's check that the scan does not see, and the knight then captures
    it; and `make_move` (Game.cpp:123-131) removes a captured piece before it
    refuses a move for causing check. The rules with both corrected — the
    path tested only for a linear shape, and every refused move leaving the
    game as it was — keep one king of each colour through any sequence of
    moves from the opening position. */
module KingSafety {
  import opened Wrappers
  import opened Positions
  import opened Pieces
  import opened BoardModel
  import opened GameRules
  import KnightShape

  // ---------------------------------------------------------------------
  // As written: a king captured after walking into an unseen knight check

  /** White knight on F3, black king on D5, black pawn on E4, white king on A1. */
  function BlindKnightBoard(): Occupancy {
    map[Position(ColA + 5, Row1 + 2) := Piece(Knight, true),
        Position(ColA + 3, Row1 + 4) := Piece(King, false),
        Position(ColA + 4, Row1 + 3) := Piece(Pawn, false),
        Position(ColA, Row1) := Piece(King, true)]
  }

  /** The board after D5-D4: white knight on F3, black king on D4, black
      pawn on E4, white king on A1. */
  function AfterKingMove(): Occupancy {
    map[Position(ColA + 5, Row1 + 2) := Piece(Knight, true), Position(ColA + 3, Row1 + 3) := Piece(King, false),
        Position(ColA, Row1) := Piece(King, true)][Position(ColA + 4, Row1 + 3) := Piece(Pawn, false)]
  }

  /** D5-D4 passes every shape, occupancy and path test. */
  lemma BlindKingAdmissible()
    ensures Admissible(GameState(BlindKnightBoard(), false), Position(ColA + 3, Row1 + 4), Position(ColA + 3, Row1 + 3))
  {
    var d5 := Position(ColA + 3, Row1 + 4);
    var d4 := Position(ColA + 3, Row1 + 3);
    assert RowWalk(d4, d4) == [];
    assert Inspected(d5, d4) == [];
  }

  /** The self-check test of D5-D4 looks at the board after the move and
      does not see the knight. */
  lemma BlindKingUnchecked()
    ensures !WouldCheck(BlindKnightBoard() - {Position(ColA + 3, Row1 + 3)}, false,
                        Position(ColA + 3, Row1 + 4), Position(ColA + 3, Row1 + 3))
  {
    KnightCheckNeedsClearPath();
    assert Relocate(BlindKnightBoard() - {Position(ColA + 3, Row1 + 3)},
                    Position(ColA + 3, Row1 + 4), Position(ColA + 3, Row1 + 3)) == AfterKingMove();
  }

  /** Black plays D5-D4: `in_check` misses the knight on F3, whose scan stops
      on the pawn on E4, so the king's move succeeds. */
  lemma BlindKingMove()
    ensures Move(GameState(BlindKnightBoard(), false), Position(ColA + 3, Row1 + 4), Position(ColA + 3, Row1 + 3)) ==
            MoveResult(GameState(AfterKingMove(), true), Pass)
  {
    var g := GameState(BlindKnightBoard(), false);
    var d5 := Position(ColA + 3, Row1 + 4);
    var d4 := Position(ColA + 3, Row1 + 3);
    BlindKingAdmissible();
    AdmissibleMove(g, d5, d4);
    BlindKingUnchecked();
    assert !CheckPromotion(g.board - {d4}, d5, d4);
    assert PlayedBoard(g, d5, d4) == AfterKingMove();
  }

  /** White then plays F3xD4: a knight's move is never path-checked and the
      white king on A1 is not attacked, so the capture of the king succeeds. */
  lemma KnightTakesKing()
    ensures var g := GameState(AfterKingMove(), true);
      Move(g, Position(ColA + 5, Row1 + 2), Position(ColA + 3, Row1 + 3)) ==
      MoveResult(GameState(map[Position(ColA + 3, Row1 + 3) := Piece(Knight, true),
                               Position(ColA + 4, Row1 + 3) := Piece(Pawn, false),
                               Position(ColA, Row1) := Piece(King, true)], false), Pass)
  {
    var f3 := Position(ColA + 5, Row1 + 2);
    var d4 := Position(ColA + 3, Row1 + 3);
    var e4 := Position(ColA + 4, Row1 + 3);
    var a1 := Position(ColA, Row1);
    var g := GameState(AfterKingMove(), true);
    KnightShape.LShape(f3, d4);
    assert Admissible(g, f3, d4);
    AdmissibleMove(g, f3, d4);
    var moved := map[d4 := Piece(Knight, true), e4 := Piece(Pawn, false), a1 := Piece(King, true)];
    assert Relocate(g.board - {d4}, f3, d4) == moved;
    FindUnique(moved, 'K', a1);
    assert !Threatens(moved, true, e4, a1);
    assert !InCheck(moved, true);
  }

  /** The two moves together: from a board with one king of each colour,
      two successful moves leave no black king. */
  lemma KingCapturedAfterBlindKnightCheck()
    ensures var g := GameState(BlindKnightBoard(), false);
      var first := Move(g, Position(ColA + 3, Row1 + 4), Position(ColA + 3, Row1 + 3));
      var second := Move(first.state, Position(ColA + 5, Row1 + 2), Position(ColA + 3, Row1 + 3));
      && KingsValid(g.board)
      && first.status == Pass && second.status == Pass
      && !KingsValid(second.state.board)
  {
    var board := BlindKnightBoard();
    assert WithDesignator(board, 'K') == {Position(ColA, Row1)};
    assert WithDesignator(board, 'k') == {Position(ColA + 3, Row1 + 4)};
    BlindKingMove();
    KnightTakesKing();
    var last := map[Position(ColA + 3, Row1 + 3) := Piece(Knight, true),
                    Position(ColA + 4, Row1 + 3) := Piece(Pawn, false),
                    Position(ColA, Row1) := Piece(King, true)];
    assert WithDesignator(last, 'k') == {};
  }

  // ---------------------------------------------------------------------
  // As intended

  /** A threat as intended: an enemy piece with a capture shape to the
      king, and a clear path when that shape is linear. */
  predicate ThreatensIntended(occ: Occupancy, white: bool, p: Position, king: Position) {
    p in occ && occ[p].white != white && LegalCaptureShape(occ[p], p, king) &&
    (IsPathLinear(p, king) ==> IsPathClear(occ, p, king))
  }

  /** Check as intended: some on-board piece threatens the king's square. */
  predicate InCheckIntended(occ: Occupancy, white: bool) {
    exists p :: p in occ && OnBoard(p) && ThreatensIntended(occ, white, p, KingSquare(occ, white))
  }

  /** `make_move` as intended: the same validation chain and the same
      relocation, but the self-check test uses `InCheckIntended` and a move
      refused for causing check leaves the game as it was. */
  function MoveIntended(g: GameState, start: Position, end: Position): (r: MoveResult)
    ensures r.status.Fail? ==> r.state == g
    ensures r.status == Pass <==>
              Admissible(g, start, end) && !InCheckIntended(Relocate(g.board - {end}, start, end), g.whiteTurn)
  {
    if !Admissible(g, start, end) then
      MoveSucceedsIff(g, start, end);
      Move(g, start, end)
    else if InCheckIntended(Relocate(g.board - {end}, start, end), g.whiteTurn) then
      MoveResult(g, Fail(MoveCausesCheck))
    else
      MoveResult(GameState(PlayedBoard(g, start, end), !g.whiteTurn), Pass)
  }

  /** With the intended check, black's D5-D4 from the same board is refused
      for causing check, and the game is unchanged. */
  lemma BlindKnightCheckRefused()
    ensures var g := GameState(BlindKnightBoard(), false);
      MoveIntended(g, Position(ColA + 3, Row1 + 4), Position(ColA + 3, Row1 + 3)) == MoveResult(g, Fail(MoveCausesCheck))
  {
    var g := GameState(BlindKnightBoard(), false);
    var f3 := Position(ColA + 5, Row1 + 2);
    var d5 := Position(ColA + 3, Row1 + 4);
    var d4 := Position(ColA + 3, Row1 + 3);
    assert RowWalk(d4, d4) == [];
    assert Inspected(d5, d4) == [];
    assert Admissible(g, d5, d4);
    var moved := Relocate(g.board - {d4}, d5, d4);
    FindUnique(moved, 'k', d4);
    KnightShape.LShape(f3, d4);
    assert ThreatensIntended(moved, false, f3, KingSquare(moved, false));
  }

  /** The square `find_by_piece` gives for a king on a valid board is the
      king's own square. */
  lemma KingSquareIs(occ: Occupancy, white: bool, k: Position)
    requires AllOnBoard(occ) && KingsValid(occ)
    requires k in occ && occ[k] == Piece(King, white)
    ensures KingSquare(occ, white) == k
  {
    var d := if white then 'K' else 'k';
    var s := WithDesignator(occ, d);
    assert k in s;
    RemoveOne(s, k);
    assert s - {k} == {};
    forall q | HasDesignator(occ, q, d)
      ensures q == k
    {
      assert q in s;
    }
    FindUnique(occ, d, k);
  }

  /** `find_by_piece` depends only on which squares hold the designator. */
  lemma {:induction false} FindFromSame(occ: Occupancy, occ': Occupancy, d: char, i: nat)
    requires i <= 64
    requires forall p :: HasDesignator(occ, p, d) <==> HasDesignator(occ', p, d)
    ensures FindFrom(occ, d, i) == FindFrom(occ', d, i)
    decreases 64 - i
  {
    if i < 64 {
      FindFromSame(occ, occ', d, i + 1);
    }
  }

  /** Promotion does not change the intended check on the mover's king: the
      relocated board and the played board differ only on `end`, which holds
      a piece of the mover's colour that is not a king on both. */
  lemma PromotionKeepsCheck(g: GameState, start: Position, end: Position)
    requires start in g.board && start != end && g.board[start].white == g.whiteTurn
    ensures InCheckIntended(Relocate(g.board - {end}, start, end), g.whiteTurn) ==
            InCheckIntended(PlayedBoard(g, start, end), g.whiteTurn)
  {
    var cleared := g.board - {end};
    var moved := Relocate(cleared, start, end);
    var played := PlayedBoard(g, start, end);
    if CheckPromotion(cleared, start, end) {
      var w := g.whiteTurn;
      var d := if w then 'K' else 'k';
      PromotionIff(cleared, start, end);
      assert moved.Keys == played.Keys;
      DesignatorRoundTrip(moved[end], d);
      DesignatorRoundTrip(played[end], d);
      forall p
        ensures HasDesignator(moved, p, d) <==> HasDesignator(played, p, d)
      {
      }
      FindFromSame(moved, played, d, 0);
      var king := KingSquare(moved, w);
      forall p | p in moved && OnBoard(p)
        ensures ThreatensIntended(moved, w, p, king) == ThreatensIntended(played, w, p, king)
      {
        assert IsPathClear(moved, p, king) == IsPathClear(played, p, king);
      }
    } else {
      assert moved == played;
    }
  }

  /** What the intended rules keep between moves: every piece on the board,
      one king of each colour, and the side that has just moved not in check. */
  predicate Safe(g: GameState) {
    AllOnBoard(g.board) && KingsValid(g.board) && !InCheckIntended(g.board, !g.whiteTurn)
  }

  /** On a valid board, an admissible capture of the opponent's king is a
      threat to it: the opponent is in check. */
  lemma KingCaptureIsCheck(g: GameState, start: Position, end: Position)
    requires AllOnBoard(g.board) && KingsValid(g.board) && Admissible(g, start, end)
    requires end in g.board && g.board[end].kind == King
    ensures InCheckIntended(g.board, !g.whiteTurn)
  {
    KingSquareIs(g.board, !g.whiteTurn, end);
    assert ThreatensIntended(g.board, !g.whiteTurn, start, KingSquare(g.board, !g.whiteTurn));
  }

  /** From a safe position, the move to play cannot capture the opponent's
      king: that capture would be a threat, and the opponent is not in check. */
  lemma NoKingCapture(g: GameState, start: Position, end: Position)
    requires Safe(g) && Admissible(g, start, end)
    ensures end in g.board ==> g.board[end].kind != King
  {
    if end in g.board && g.board[end].kind == King {
      KingCaptureIsCheck(g, start, end);
      assert false;
    }
  }

  /** Every intended move, successful or refused, keeps a position safe. */
  lemma SafeStep(g: GameState, start: Position, end: Position)
    requires Safe(g)
    ensures Safe(MoveIntended(g, start, end).state)
  {
    var r := MoveIntended(g, start, end);
    if r.status == Pass {
      NoKingCapture(g, start, end);
      var after := PlayedBoard(g, start, end);
      assert r.state == GameState(after, !g.whiteTurn);
      PlayedKeepsKings(g, start, end, 'K');
      PlayedKeepsKings(g, start, end, 'k');
      if end in g.board {
        DesignatorRoundTrip(g.board[end], 'K');
        DesignatorRoundTrip(g.board[end], 'k');
      }
      PromotionKeepsCheck(g, start, end);
    }
  }

  /** A sequence of `make_move` calls under the intended rules. */
  function PlayIntended(g: GameState, moves: seq<(Position, Position)>): GameState
    decreases |moves|
  {
    if moves == [] then g
    else PlayIntended(MoveIntended(g, moves[0].0, moves[0].1).state, moves[1..])
  }

  /** Under the intended rules a safe position stays safe whatever moves
      are tried, so both kings stay on the board. */
  lemma {:induction false} KingsSurvive(g: GameState, moves: seq<(Position, Position)>)
    requires Safe(g)
    ensures Safe(PlayIntended(g, moves)) && KingsValid(PlayIntended(g, moves).board)
    decreases |moves|
  {
    if moves != [] {
      SafeStep(g, moves[0].0, moves[0].1);
      KingsSurvive(MoveIntended(g, moves[0].0, moves[0].1).state, moves[1..]);
    }
  }

  /** The opening position, white to move, is safe: no white piece has a
      capture shape to the black king on E8. */
  lemma OpeningIsSafe(occ: Occupancy)
    requires forall p :: PieceAt(occ, p) == InitialPieceAt(p)
    ensures Safe(GameState(occ, true))
  {
    InitialKings(occ);
    var e8 := Position(ColA + 4, Row8);
    assert PieceAt(occ, e8) == InitialPieceAt(e8);
    KingSquareIs(occ, false, e8);
    forall p | p in occ && OnBoard(p) && occ[p].white
      ensures !LegalCaptureShape(occ[p], p, e8)
    {
      assert PieceAt(occ, p) == InitialPieceAt(p);
    }
  }

  /** Under the intended rules, both kings survive any sequence of moves
      from the opening position. */
  lemma KingsSurviveFromOpening(occ: Occupancy, moves: seq<(Position, Position)>)
    requires forall p :: PieceAt(occ, p) == InitialPieceAt(p)
    ensures KingsValid(PlayIntended(GameState(occ, true), moves).board)
  {
    OpeningIsSafe(occ);
    KingsSurvive(GameState(occ, true), moves);
  }
}
