/** The six piece kinds and what Piece.h and CreatePiece.h provide for them:
    the designator letter (upper case = white), the designator-to-piece
    mapping, the point value, and the move and capture shapes dispatched to
    the per-kind rules. Piece.h and CreatePiece.h are not part of this model;
    the definitions here follow the letters PNBRQK and the usual values. */
module Pieces {
  import opened Wrappers
  import opened Positions
  import PawnShape
  import RookShape
  import KnightShape
  import BishopShape
  import QueenShape
  import KingShape

  datatype Kind = Pawn | Rook | Knight | Bishop | Queen | King

  /** A piece is its kind and its colour; `white` is `is_white()`. */
  datatype Piece = Piece(kind: Kind, white: bool)

  /** `to_ascii`: the piece's designator letter. */
  function ToAscii(p: Piece): (c: char)
    ensures c != '-' && c != '\n'
    ensures 'A' <= c <= 'Z' <==> p.white
  {
    match p.kind
    case Pawn => if p.white then 'P' else 'p'
    case Rook => if p.white then 'R' else 'r'
    case Knight => if p.white then 'N' else 'n'
    case Bishop => if p.white then 'B' else 'b'
    case Queen => if p.white then 'Q' else 'q'
    case King => if p.white then 'K' else 'k'
  }

  /** `create_piece`: the piece a designator stands for, or None (the C++
      nullptr) for any other character. */
  function CreatePiece(d: char): (r: Option<Piece>)
    ensures r.Some? ==> (r.value.white <==> 'A' <= d <= 'Z')
    ensures d == '-' || d == '\n' ==> r.None?
  {
    match d
    case 'P' => Some(Piece(Pawn, true))
    case 'R' => Some(Piece(Rook, true))
    case 'N' => Some(Piece(Knight, true))
    case 'B' => Some(Piece(Bishop, true))
    case 'Q' => Some(Piece(Queen, true))
    case 'K' => Some(Piece(King, true))
    case 'p' => Some(Piece(Pawn, false))
    case 'r' => Some(Piece(Rook, false))
    case 'n' => Some(Piece(Knight, false))
    case 'b' => Some(Piece(Bishop, false))
    case 'q' => Some(Piece(Queen, false))
    case 'k' => Some(Piece(King, false))
    case _ => None
  }

  /** The designator mapping and `to_ascii` are inverse to each other. */
  lemma DesignatorRoundTrip(p: Piece, d: char)
    ensures CreatePiece(ToAscii(p)) == Some(p)
    ensures CreatePiece(d) == Some(p) ==> ToAscii(p) == d
  {
  }

  /** Two pieces with the same designator are the same piece. */
  lemma AsciiInjective(p: Piece, q: Piece)
    ensures ToAscii(p) == ToAscii(q) <==> p == q
  {
    DesignatorRoundTrip(p, ToAscii(q));
  }

  /** `point_value`: pawn 1, knight and bishop 3, rook 5, queen 9, king 0. */
  function PointValue(p: Piece): (v: nat)
    ensures v <= 9
    ensures v == 0 <==> p.kind == King
  {
    match p.kind
    case Pawn => 1
    case Knight => 3
    case Bishop => 3
    case Rook => 5
    case Queen => 9
    case King => 0
  }

  /** `legal_move_shape`, dispatched on the kind. */
  predicate LegalMoveShape(p: Piece, start: Position, end: Position) {
    match p.kind
    case Pawn => PawnShape.LegalMoveShape(p.white, start, end)
    case Rook => RookShape.LegalMoveShape(start, end)
    case Knight => KnightShape.LegalMoveShape(start, end)
    case Bishop => BishopShape.LegalMoveShape(start, end)
    case Queen => QueenShape.LegalMoveShape(start, end)
    case King => KingShape.LegalMoveShape(start, end)
  }

  /** `legal_capture_shape`: the pawn overrides it; every other kind keeps
      the default, which is its move shape. */
  predicate LegalCaptureShape(p: Piece, start: Position, end: Position) {
    if p.kind == Pawn then PawnShape.LegalCaptureShape(p.white, start, end)
    else LegalMoveShape(p, start, end)
  }

  /** Only the pawn's shapes depend on its colour. */
  lemma ColourMattersOnlyForPawns(k: Kind, start: Position, end: Position)
    requires k != Pawn
    ensures LegalMoveShape(Piece(k, true), start, end) == LegalMoveShape(Piece(k, false), start, end)
    ensures LegalCaptureShape(Piece(k, true), start, end) == LegalMoveShape(Piece(k, true), start, end)
  {
  }
}
