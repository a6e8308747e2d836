/**
 * A board tile (Source/Checkers/Tile.h, Tile.cpp): its screen rectangle, the piece standing on it
 * (if any), its background colour and whether it is offered as a destination. The board keeps its
 * 64 tiles by value in an array, so each tile operation is a function giving the updated tile.
 */
module Tiles {
  import opened Wrappers
  import opened CheckersConstants
  import opened Pieces

  datatype Tile = Tile(rect: Rect, piece: Option<Piece>, side: CheckersColor, highLighted: bool)
  {
    /** `RemovePiece`: the tile no longer holds a piece. */
    function RemovePiece(): (t: Tile)
      ensures t.piece.None?
      ensures t.rect == rect && t.side == side && t.highLighted == highLighted
    {
      this.(piece := None)
    }

    /** `SetHighLighted`: offer the tile as a destination. */
    function SetHighLighted(): (t: Tile)
      ensures t.highLighted && t.rect == rect && t.piece == piece && t.side == side
    {
      this.(highLighted := true)
    }

    /** `Reset`: withdraw the offer; the piece is untouched. */
    function Reset(): (t: Tile)
      ensures !t.highLighted && t.rect == rect && t.piece == piece && t.side == side
    {
      this.(highLighted := false)
    }

    /** `SetPiece`: hold exactly `p` (possibly nothing); a piece is moved into the tile's rectangle. */
    function SetPiece(p: Option<Piece>): (t: Tile)
      ensures t.piece.None? <==> p.None?
      ensures p.Some? ==> t.piece.value == p.value.SetPosition(rect)
      ensures t.rect == rect && t.side == side && t.highLighted == highLighted
    {
      match p
      case None => this.(piece := None)
      case Some(q) => this.(piece := Some(q.SetPosition(rect)))
    }

    /** `SetPosition`: place the tile at column `x`, row `y`. */
    function SetPosition(x: nat, y: nat): (t: Tile)
      ensures t.rect == rect.(x := x * TileWidth, y := y * TileHeight)
      ensures t.piece == piece && t.side == side && t.highLighted == highLighted
    {
      this.(rect := rect.(x := x * TileWidth, y := y * TileHeight))
    }

    /** `SetSide`: change only the background colour. */
    function SetSide(color: CheckersColor): (t: Tile)
      ensures t.side == color && t.rect == rect && t.piece == piece && t.highLighted == highLighted
    {
      this.(side := color)
    }

    predicate Occupied() { piece.Some? }
  }

  /** `Tile()`: empty, dark, not offered, one pixel smaller than a grid cell, at the origin. */
  function NewTile(): (t: Tile)
    ensures t.piece.None? && t.side == Dark && !t.highLighted
    ensures t.rect == Rect(0, 0, TileWidth - 1, TileHeight - 1)
  {
    Tile(Rect(0, 0, TileWidth - 1, TileHeight - 1), None, Dark, false)
  }

  /** Removing a piece twice is removing it once. */
  lemma RemovePieceIdempotent(t: Tile)
    ensures t.RemovePiece().RemovePiece() == t.RemovePiece()
  {
  }
}
