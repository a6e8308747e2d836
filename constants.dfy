/**
 * Board geometry, colours, the wire templates and the small index helpers shared by the board and
 * the networking layer (Source/Checkers/CheckersConstants.h).
 */
module CheckersConstants {
  import opened Wrappers

  // Application window, in pixels
  const WindowWidth: int := 512
  const WindowHeight: int := 512

  // Game map
  const BoardWidth: nat := 8
  const BoardHeight: nat := 8
  const BoardSize: nat := 64
  const TileWidth: int := 64
  const TileHeight: int := 64

  /** `std::numeric_limits<size_t>::max()` on a 64-bit target: the "no tile" index. */
  const InvalidIndex: nat := 0xFFFF_FFFF_FFFF_FFFF

  /** SDL's key code for 'r' (SDLK_r), the host's restart key. */
  const RestartKey: int := 114

  /** Size of the character buffers the messages are printed into. */
  const Limit: nat := 128

  // Wire templates, in the notation of printf
  const KillTemplate: string := "KILL %zd %zd\n"
  const MoveTemplate: string := "MOVE %zd %zd %zd\n"
  const GameFullTemplate: string := "GAME IS FULL\n"
  const ActiveTemplate: string := "ACTIVE\n"
  const PieceTemplate: string := "PIECE %zd AT %zd\n"
  const TurnTemplate: string := "TURN %zd\n"
  const RestartTemplate: string := "RESTART\n"

  /** Player and tile colour; `Continue` is what the winner check answers while nobody has won. */
  datatype CheckersColor = Dark | Light | Count | Continue
  {
    /** The enum's underlying value. */
    function Value(): (v: nat)
      ensures v < 4
    {
      match this
      case Dark => 0
      case Light => 1
      case Count => 2
      case Continue => 3
    }
  }

  /** The C cast `(CheckersColor)v` for the values the protocol carries. */
  function ColorOf(v: nat): (c: CheckersColor)
    requires v < 4
    ensures c.Value() == v
  {
    if v == 0 then Dark else if v == 1 then Light else if v == 2 then Count else Continue
  }

  predicate IsPlayer(c: CheckersColor) { c == Dark || c == Light }

  function Opponent(c: CheckersColor): (o: CheckersColor)
    requires IsPlayer(c)
    ensures IsPlayer(o) && o != c
  {
    if c == Dark then Light else Dark
  }

  /** The outcome of a drop: the destination tile (`InvalidIndex` when the move is illegal) and the
      opponent pieces it captures, in capture order. */
  datatype MoveResult = MoveResult(destIndex: nat, piecesToKill: seq<nat>)

  /** `MoveResult()`: no destination and nothing to capture. */
  function DefaultMoveResult(): (r: MoveResult)
    ensures r.destIndex == InvalidIndex && r.piecesToKill == []
  {
    MoveResult(InvalidIndex, [])
  }

  /** An integer grid position (the source returns it as a float vector). */
  datatype GridPos = GridPos(x: nat, y: nat)

  predicate IsIndex(i: int) { 0 <= i < BoardSize }

  /** `RevertedIndex`: the tile index seen from the other side of the board, `|i - 63|`. */
  function RevertedIndex(indexToRevert: int): (r: nat)
    ensures IsIndex(indexToRevert) ==> r == BoardSize - 1 - indexToRevert && IsIndex(r)
  {
    if indexToRevert >= BoardSize - 1 then indexToRevert - (BoardSize - 1)
    else (BoardSize - 1) - indexToRevert
  }

  /** `GetIndexFromPos`: row-major index of column `x`, row `y`. */
  function GetIndexFromPos(x: nat, y: nat): (i: nat)
    ensures x < BoardWidth && y < BoardHeight ==> IsIndex(i)
    ensures x < BoardWidth ==> i % BoardWidth == x && i / BoardWidth == y
  {
    y * BoardWidth + x
  }

  /** `GetVec2FromIndex`: column and row of an index. */
  function GetVec2FromIndex(index: nat): (p: GridPos)
    ensures p.x < BoardWidth
    ensures IsIndex(index) ==> p.y < BoardHeight
    ensures GetIndexFromPos(p.x, p.y) == index
  {
    GridPos(index % BoardWidth, index / BoardWidth)
  }

  /** A click inside the 512x512 window; SDL only reports clicks there. */
  predicate InWindow(pixelX: int, pixelY: int)
  {
    0 <= pixelX < WindowWidth && 0 <= pixelY < WindowHeight
  }

  /** `GetIndexFromPixel`: the tile under a click. */
  function GetIndexFromPixel(pixelX: int, pixelY: int): (i: nat)
    requires InWindow(pixelX, pixelY)
    ensures IsIndex(i)
    ensures GetVec2FromIndex(i) == GridPos(pixelX / TileWidth, pixelY / TileHeight)
  {
    GetIndexFromPos(pixelX / TileWidth, pixelY / TileHeight)
  }

  /** The index of the last newline of `s`, if any. */
  function LastNewline(s: string): (k: Option<nat>)
    ensures k.None? <==> '\n' !in s
    ensures k.Some? ==> k.value < |s| && s[k.value] == '\n' && '\n' !in s[k.value + 1..]
  {
    if s == [] then None
    else if s[|s| - 1] == '\n' then Some(|s| - 1)
    else
      var k := LastNewline(s[..|s| - 1]);
      assert s == s[..|s| - 1] + [s[|s| - 1]];
      k
  }

  /** `operator--`: `s` cut at its last newline (`s.substr(0, s.find_last_of("\n"))`). */
  function StripNewline(s: string): string
  {
    match LastNewline(s)
    case None => s
    case Some(k) => s[..k]
  }

  lemma StripNewlineWithout(s: string)
    requires '\n' !in s
    ensures StripNewline(s) == s
  {
  }

  /** Cutting a line at its last newline drops that newline and everything after it. */
  lemma StripNewlineAt(p: string, q: string)
    requires '\n' !in q
    ensures StripNewline(p + "\n" + q) == p
  {
    var s := p + "\n" + q;
    assert s[|p|] == '\n' && s[|p| + 1..] == q;
  }

  /** Each template is one line: it ends in its only newline. */
  predicate OneLine(t: string)
  {
    |t| > 0 && t[|t| - 1] == '\n' && '\n' !in t[..|t| - 1]
  }

  lemma TemplatesAreLines()
    ensures OneLine(KillTemplate) && OneLine(MoveTemplate) && OneLine(GameFullTemplate)
    ensures OneLine(ActiveTemplate) && OneLine(PieceTemplate) && OneLine(TurnTemplate)
    ensures OneLine(RestartTemplate)
  {
  }

  /** `--t` of a template is the template without its newline. */
  lemma StripTemplate(t: string)
    requires OneLine(t)
    ensures StripNewline(t) == t[..|t| - 1] && StripNewline(t) + "\n" == t
  {
    assert t == t[..|t| - 1] + "\n" + [];
    StripNewlineAt(t[..|t| - 1], []);
  }

  /** The 180-degree mirror is its own inverse on the board. */
  lemma RevertedIndexInvolutive(i: int)
    requires IsIndex(i)
    ensures RevertedIndex(RevertedIndex(i)) == i
  {
  }
}
