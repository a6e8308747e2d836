/**
 * A checkers piece (Source/Checkers/Piece.h, Piece.cpp): its colour, its crown, and the screen
 * rectangle it is drawn in. The model keeps a piece as a value held by its tile; texture loading
 * and drawing are not part of it.
 */
module Pieces {
  import opened CheckersConstants

  /** An SDL rectangle, in pixels. */
  datatype Rect = Rect(x: int, y: int, w: int, h: int)

  /** How far a selected piece is lifted on screen. */
  const OnSelectedYOffset: int := TileHeight / 3

  datatype Piece = Piece(color: CheckersColor, isKing: bool, rect: Rect)
  {
    /** `ToKing`: crown the piece. */
    function ToKing(): (p: Piece)
      ensures p.isKing && p.color == color && p.rect == rect
    {
      this.(isKing := true)
    }

    /** `OnSelected`: lift the piece by a third of a tile. */
    function OnSelected(): (p: Piece)
      ensures p.rect == rect.(y := rect.y - OnSelectedYOffset)
      ensures p.color == color && p.isKing == isKing
    {
      this.(rect := rect.(y := rect.y - OnSelectedYOffset))
    }

    /** `UnSelect`: put a lifted piece back down. */
    function UnSelect(): (p: Piece)
      ensures p.rect == rect.(y := rect.y + OnSelectedYOffset)
      ensures p.color == color && p.isKing == isKing
    {
      this.(rect := rect.(y := rect.y + OnSelectedYOffset))
    }

    /** `SetPosition`: draw the piece in the given rectangle. */
    function SetPosition(transform: Rect): (p: Piece)
      ensures p.rect == transform && p.color == color && p.isKing == isKing
    {
      this.(rect := transform)
    }
  }

  /**
   * The gameplay part of `Piece(side, renderer)`: the colour and the crown are set before any asset
   * is loaded, so a failed load cannot change them. The rectangle is one pixel smaller than a tile;
   * its origin is set when the piece is put on a tile.
   */
  function NewPiece(side: CheckersColor): (p: Piece)
    ensures p.color == side && !p.isKing
    ensures p.rect.w == TileWidth - 1 && p.rect.h == TileHeight - 1
  {
    Piece(side, false, Rect(0, 0, TileWidth - 1, TileHeight - 1))
  }

  /** Everything that can happen to a piece after it is made. */
  datatype PieceOp = Select | Unselect | Crown | Place(transform: Rect)

  function Apply(p: Piece, op: PieceOp): Piece
  {
    match op
    case Select => p.OnSelected()
    case Unselect => p.UnSelect()
    case Crown => p.ToKing()
    case Place(r) => p.SetPosition(r)
  }

  function ApplyAll(p: Piece, ops: seq<PieceOp>): Piece
    decreases |ops|
  {
    if ops == [] then p else ApplyAll(Apply(p, ops[0]), ops[1..])
  }

  /** A piece's colour never changes, and once crowned it stays crowned. */
  lemma {:induction false} ColorFixedCrownKept(p: Piece, ops: seq<PieceOp>)
    ensures ApplyAll(p, ops).color == p.color
    ensures p.isKing ==> ApplyAll(p, ops).isKing
    decreases |ops|
  {
    if ops != [] {
      ColorFixedCrownKept(Apply(p, ops[0]), ops[1..]);
    }
  }

  /** Crowning twice is crowning once. */
  lemma ToKingIdempotent(p: Piece)
    ensures p.ToKing().ToKing() == p.ToKing()
  {
  }

  /** Lifting a piece and putting it down again restores its rectangle. */
  lemma SelectThenUnselect(p: Piece)
    ensures p.OnSelected().UnSelect() == p
  {
  }
}
