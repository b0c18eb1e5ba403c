/** The game's text form: `operator<<` writes the board dump and a turn
    character, `operator>>` reads 8 lines of 9 characters and a turn
    character back. The stream is modelled as the sequence of characters
    it delivers. */
module GameCodec {
  import opened Wrappers
  import opened Positions
  import opened Pieces
  import opened BoardModel
  import opened GameRules

  /** `operator<<` for a game: the board, then 'w' or 'b'. */
  function Serialize(g: GameState): seq<char> {
    Dump(g.board) + [if g.whiteTurn then 'w' else 'b']
  }

  /** The value `is.get()` leaves in a `char` at the end of the input
      (EOF, -1, stored in a signed char). */
  const EndOfInput: char := 'ÿ'

  /** The `i`-th character `is.get()` delivers. */
  function CharAt(text: seq<char>, i: nat): char {
    if i < |text| then text[i] else EndOfInput
  }

  /** Why `operator>>` throws: `add_piece` refused a grid character, or the
      turn character is neither 'w' nor 'b'. */
  datatype ReadError = GridError(error: BoardError) | BadTurn

  /** The board after reading grid characters `k..71`, and the `add_piece`
      error that stopped the read, if any. */
  datatype Filled = Filled(occ: Occupancy, error: Option<BoardError>)

  /** The nested loops of `operator>>`: character `k` belongs to
      `GridPos(k)` (the ninth column is 'I'); '-' and '\n' are skipped and
      every other character is handed to `add_piece`. */
  function Fill(text: seq<char>, k: nat, occ: Occupancy): Filled
    requires k <= 72
    decreases 72 - k
  {
    if k == 72 then Filled(occ, None)
    else
      var c := CharAt(text, k);
      if c != '-' && c != '\n' then
        match Place(occ, GridPos(k), c)
        case Failure(e) => Filled(occ, Some(e))
        case Success(occ') => Fill(text, k + 1, occ')
      else Fill(text, k + 1, occ)
  }

  /** One character of the grid: skipped, refused by `add_piece`, or added. */
  lemma FillStep(text: seq<char>, k: nat, occ: Occupancy)
    requires k < 72
    ensures var c := CharAt(text, k);
      && (c == '-' || c == '\n' ==> Fill(text, k, occ) == Fill(text, k + 1, occ))
      && (c != '-' && c != '\n' && Place(occ, GridPos(k), c).Failure? ==>
            Fill(text, k, occ) == Filled(occ, Some(Place(occ, GridPos(k), c).error)))
      && (c != '-' && c != '\n' && Place(occ, GridPos(k), c).Success? ==>
            Fill(text, k, occ) == Fill(text, k + 1, Place(occ, GridPos(k), c).value))
  {
  }

  /** The game `operator>>` leaves behind, and whether it threw. */
  datatype ReadResult = ReadResult(state: GameState, status: Outcome<ReadError>)

  /** `operator>>` into a game `g`: the board is emptied and refilled; on a
      grid error the board stays partly filled and the turn unchanged. */
  function Load(text: seq<char>, g: GameState): ReadResult {
    var f := Fill(text, 0, map[]);
    if f.error.Some? then ReadResult(GameState(f.occ, g.whiteTurn), Fail(GridError(f.error.value)))
    else
      var t := CharAt(text, 72);
      if t != 'w' && t != 'b' then ReadResult(GameState(f.occ, g.whiteTurn), Fail(BadTurn))
      else ReadResult(GameState(f.occ, t == 'w'), Pass)
  }

  /** The text position of an on-board square. */
  function GridIndexOf(p: Position): (k: nat)
    requires OnBoard(p)
    ensures k < 72 && k % 9 != 8 && GridPos(k) == p
  {
    var k := 9 * (Row8 - p.row) + (p.col - ColA);
    GridIndex(Row8 - p.row, p.col - ColA);
    k
  }

  /** The part of `occ` on squares written before text position `k`. */
  function ReadPart(occ: Occupancy, k: nat): Occupancy {
    map p | p in occ && OnBoard(p) && GridIndexOf(p) < k :: occ[p]
  }

  lemma ReadPartStep(occ: Occupancy, k: nat)
    requires k < 72
    ensures k % 9 == 8 || !(GridPos(k) in occ) ==> ReadPart(occ, k + 1) == ReadPart(occ, k)
    ensures k % 9 != 8 ==> OnBoard(GridPos(k)) && GridIndexOf(GridPos(k)) == k && GridPos(k) !in ReadPart(occ, k)
    ensures k % 9 != 8 && GridPos(k) in occ ==>
              ReadPart(occ, k + 1) == ReadPart(occ, k)[GridPos(k) := occ[GridPos(k)]]
  {
    GridIndex(k / 9, k % 9);
    if k % 9 != 8 {
      assert GridPos(k) == Position(ColA + k % 9, Row8 - k / 9);
      assert GridIndexOf(GridPos(k)) == k;
    }
    forall p | OnBoard(p) && GridIndexOf(p) == k
      ensures p == GridPos(k) && k % 9 != 8
    {
    }
  }

  /** Reading a dump back, from text position `k` on, completes the part of
      the board written before `k` to the whole board. */
  lemma {:induction false} FillDump(occ: Occupancy, t: char, k: nat)
    requires AllOnBoard(occ) && k <= 72
    ensures Fill(Dump(occ) + [t], k, ReadPart(occ, k)) == Filled(occ, None)
    decreases 72 - k
  {
    var text := Dump(occ) + [t];
    if k == 72 {
      assert ReadPart(occ, 72) == occ;
    } else {
      ReadPartStep(occ, k);
      assert CharAt(text, k) == DumpChar(occ, k);
      FillDump(occ, t, k + 1);
      if k % 9 != 8 && GridPos(k) in occ {
        var p := GridPos(k);
        DesignatorRoundTrip(occ[p], ToAscii(occ[p]));
        assert Place(ReadPart(occ, k), p, ToAscii(occ[p])) == Success(ReadPart(occ, k + 1));
      }
    }
  }

  /** Writing a game and reading it back restores every square and the
      turn, whatever game the text is read into. */
  lemma RoundTrip(g: GameState, into: GameState)
    requires AllOnBoard(g.board)
    ensures Load(Serialize(g), into) == ReadResult(g, Pass)
  {
    FillDump(g.board, if g.whiteTurn then 'w' else 'b', 0);
    assert ReadPart(g.board, 0) == map[];
    assert CharAt(Serialize(g), 72) == (if g.whiteTurn then 'w' else 'b');
  }

  /** Whatever the text, the read throws for the turn character exactly
      when every grid character was accepted and the character after the
      grid is neither 'w' nor 'b'; the board read is then kept with the old
      turn. A read that succeeds takes the turn from that character. */
  lemma TurnCharacter(text: seq<char>, into: GameState)
    ensures var f := Fill(text, 0, map[]);
      var t := CharAt(text, 72);
      && (Load(text, into).status == Fail(BadTurn) <==> f.error.None? && t != 'w' && t != 'b')
      && (Load(text, into).status == Fail(BadTurn) ==> Load(text, into).state == GameState(f.occ, into.whiteTurn))
      && (Load(text, into).status == Pass ==> Load(text, into).state == GameState(f.occ, t == 'w'))
  {
  }

  /** A well-formed grid followed by a turn character other than 'w' and
      'b' makes the read throw; the board has been read, the turn is kept. */
  lemma BadTurnRejected(occ: Occupancy, t: char, into: GameState)
    requires AllOnBoard(occ) && t != 'w' && t != 'b'
    ensures Load(Dump(occ) + [t], into) == ReadResult(GameState(occ, into.whiteTurn), Fail(BadTurn))
  {
    FillDump(occ, t, 0);
    assert ReadPart(occ, 0) == map[];
    assert CharAt(Dump(occ) + [t], 72) == t;
  }

  /** Whatever the text, the board read back lies on A-H/1-8. */
  lemma {:induction false} FillStaysOnBoard(text: seq<char>, k: nat, occ: Occupancy)
    requires k <= 72 && AllOnBoard(occ)
    ensures AllOnBoard(Fill(text, k, occ).occ)
    decreases 72 - k
  {
    if k < 72 {
      var c := CharAt(text, k);
      PlaceOutcome(occ, GridPos(k), c);
      if c != '-' && c != '\n' && Place(occ, GridPos(k), c).Success? {
        FillStaysOnBoard(text, k + 1, Place(occ, GridPos(k), c).value);
      } else if c == '-' || c == '\n' {
        FillStaysOnBoard(text, k + 1, occ);
      }
    }
  }
}
