/**
 * The rules of the board (`GameState`, Source/Checkers/GameState.cpp) as functions on an abstract
 * game value: the 64 tiles, the local player's colour, whether the board is set up, the index sets
 * of the local player's pieces and of the opponent's pieces, and the danger map of the current
 * selection. The `GameState` class updates its fields in place; each of its methods is specified by
 * one of these functions, and the properties of the game are lemmas about them.
 */
module GameRules {
  import opened Wrappers
  import opened CheckersConstants
  import opened Pieces
  import opened Tiles
  import opened MoveSearch

  /** Pieces spawn on rows strictly above the top row and strictly below the bottom row. */
  const SpawnBottomPieceRow: nat := 4
  const SpawnTopPieceRow: nat := 3

  datatype GameModel = GameModel(tiles: seq<Tile>, player: CheckersColor, doneInit: bool,
                                 my: set<nat>, other: set<nat>, danger: map<nat, seq<nat>>)

  predicate Sized(m: GameModel) { |m.tiles| == BoardSize }

  /** `GameState()`: 64 default tiles, dark player, not set up, no pieces and no captures. */
  function NewGame(): (m: GameModel)
    ensures Sized(m) && m.player == Dark && !m.doneInit
    ensures m.my == {} && m.other == {} && m.danger == map[]
    ensures forall i | 0 <= i < BoardSize :: m.tiles[i] == NewTile()
  {
    GameModel(seq(BoardSize, _ => NewTile()), Dark, false, {}, {}, map[])
  }

  /** The board agrees with the two index sets: the local player's pieces are exactly the tiles
      listed in `my`, the opponent's exactly those listed in `other`. */
  predicate Consistent(m: GameModel)
  {
    Sized(m) && IsPlayer(m.player)
    && (forall i | i in m.my :: IsIndex(i) && m.tiles[i].piece.Some? && m.tiles[i].piece.value.color == m.player)
    && (forall i | i in m.other ::
          IsIndex(i) && m.tiles[i].piece.Some? && m.tiles[i].piece.value.color == Opponent(m.player))
    && (forall i | 0 <= i < BoardSize && m.tiles[i].piece.Some? :: i in m.my || i in m.other)
  }

  // ----- CheckerWinner -----

  /** `CheckerWinner`: nobody wins before the board is set up; a side with no pieces left loses. */
  function Winner(m: GameModel): (w: CheckersColor)
    ensures !m.doneInit ==> w == Continue
    ensures IsPlayer(m.player) ==> (w == Continue <==> !m.doneInit || (m.my != {} && m.other != {}))
    ensures IsPlayer(m.player) && m.doneInit && m.my == {} ==> w == Opponent(m.player)
    ensures m.doneInit && m.my != {} && m.other == {} ==> w == m.player
  {
    if !m.doneInit then Continue
    else if |m.my| <= 0 then (if m.player == Dark then Light else Dark)
    else if |m.other| <= 0 then m.player
    else Continue
  }

  // ----- KillPieceAt, MovePiece, PlacePiece -----

  /** `KillPieceAt`: empty the tile and forget the index in the set that holds it. */
  function KillPieceAt(m: GameModel, index: nat): (r: GameModel)
    requires Sized(m) && IsIndex(index)
    ensures Sized(r) && r.tiles[index].piece.None?
    ensures forall i | 0 <= i < BoardSize && i != index :: r.tiles[i] == m.tiles[i]
    ensures r.tiles[index].rect == m.tiles[index].rect && r.tiles[index].side == m.tiles[index].side
    ensures r.tiles[index].highLighted == m.tiles[index].highLighted
    ensures r.my == m.my - {index}
    ensures r.other == if index in m.my then m.other else m.other - {index}
    ensures r.player == m.player && r.doneInit == m.doneInit && r.danger == m.danger
  {
    var tiles := m.tiles[index := m.tiles[index].RemovePiece()];
    if index in m.my then m.(tiles := tiles, my := m.my - {index})
    else if index in m.other then m.(tiles := tiles, other := m.other - {index})
    else m.(tiles := tiles)
  }

  /** The index sets after a move: the index moves within the set that holds `from`. */
  function MoveIndex(s: set<nat>, from: nat, dest: nat): set<nat>
  {
    if from in s then s - {from} + {dest} else s
  }

  /** `MovePiece`: the piece on `from` goes to `dest`, which is not checked to be empty; the index
      moves within the local player's set, or else within the opponent's. A local piece that reaches
      the top row is crowned. When `from == dest` the piece is dropped from the board. */
  function MovePiece(m: GameModel, from: nat, dest: nat): (r: GameModel)
    requires Sized(m) && IsIndex(from) && IsIndex(dest)
    ensures Sized(r)
    ensures forall i | 0 <= i < BoardSize && i != from && i != dest :: r.tiles[i] == m.tiles[i]
    ensures r.player == m.player && r.doneInit == m.doneInit && r.danger == m.danger
  {
    var moved := m.tiles[from].piece;
    var placed := m.tiles[dest := m.tiles[dest].SetPiece(moved)];
    var tiles := placed[from := placed[from].SetPiece(None)];
    var my := MoveIndex(m.my, from, dest);
    var other := if from in m.my then m.other else MoveIndex(m.other, from, dest);
    var crown := dest / BoardWidth == 0 && dest in my && tiles[dest].piece.Some?;
    var crowned := if crown then tiles[dest := tiles[dest].(piece := Some(tiles[dest].piece.value.ToKing()))] else tiles;
    m.(tiles := crowned, my := my, other := other)
  }

  /** `PlacePiece`, on the client only: a new piece of `side` on the tile; it is the local player's
      if `side` is the local colour. The board counts as set up once both sides have a piece. */
  function PlacePiece(m: GameModel, side: CheckersColor, index: nat): (r: GameModel)
    requires Sized(m) && IsIndex(index) && m.player == Light
    ensures Sized(r)
    ensures r.tiles[index].piece.Some? && r.tiles[index].piece.value.color == side
    ensures !r.tiles[index].piece.value.isKing
    ensures forall i | 0 <= i < BoardSize && i != index :: r.tiles[i] == m.tiles[i]
    ensures r.my == if side == m.player then m.my + {index} else m.my
    ensures r.other == if side == m.player then m.other else m.other + {index}
    ensures r.doneInit <==> m.doneInit || (r.my != {} && r.other != {})
    ensures r.player == m.player && r.danger == m.danger
  {
    var tiles := m.tiles[index := m.tiles[index].SetPiece(Some(NewPiece(side)))];
    var my := if side == m.player then m.my + {index} else m.my;
    var other := if side == m.player then m.other else m.other + {index};
    m.(tiles := tiles, my := my, other := other, doneInit := if my != {} && other != {} then true else m.doneInit)
  }

  lemma KillKeepsConsistent(m: GameModel, index: nat)
    requires Consistent(m) && IsIndex(index)
    ensures Consistent(KillPieceAt(m, index))
  {
  }

  /** A move of a piece onto an empty tile keeps the board and the sets in agreement. */
  lemma MoveKeepsConsistent(m: GameModel, from: nat, dest: nat)
    requires Consistent(m) && IsIndex(from) && IsIndex(dest) && from != dest
    requires m.tiles[from].piece.Some? && m.tiles[dest].piece.None?
    ensures Consistent(MovePiece(m, from, dest))
  {
    var r := MovePiece(m, from, dest);
    assert r.tiles[dest].piece.Some? && r.tiles[dest].piece.value.color == m.tiles[from].piece.value.color;
    assert r.tiles[from].piece.None?;
  }

  /** The moved piece keeps its colour, and it is crowned exactly when it was a king already or is a
      local piece that reached the top row: a move never takes a crown away. */
  lemma MoveCrowns(m: GameModel, from: nat, dest: nat)
    requires Sized(m) && IsIndex(from) && IsIndex(dest) && from != dest && m.tiles[from].piece.Some?
    ensures var r := MovePiece(m, from, dest);
      && r.tiles[from].piece.None?
      && r.tiles[dest].piece.Some?
      && r.tiles[dest].piece.value.color == m.tiles[from].piece.value.color
      && (r.tiles[dest].piece.value.isKing
          <==> m.tiles[from].piece.value.isKing || (dest / BoardWidth == 0 && dest in r.my))
      && (from in m.my ==> r.my == m.my - {from} + {dest} && r.other == m.other)
      && (from !in m.my && from in m.other ==> r.my == m.my && r.other == m.other - {from} + {dest})
  {
  }

  /** Placing a piece of either colour on an empty tile keeps the board and the sets in agreement,
      and a set-up board stays set up. */
  lemma PlaceKeepsConsistent(m: GameModel, side: CheckersColor, index: nat)
    requires Consistent(m) && IsIndex(index) && m.player == Light && IsPlayer(side)
    requires m.tiles[index].piece.None?
    ensures Consistent(PlacePiece(m, side, index))
    ensures m.doneInit ==> PlacePiece(m, side, index).doneInit
  {
  }

  // ----- InitMap, Init, Restart -----

  /** A dark cell: its row and column add up to an odd number (the toggling flag of `InitMap`). */
  predicate DarkCell(index: nat)
  {
    (index / BoardWidth + index % BoardWidth) % 2 == 1
  }

  /** The colour of the piece `InitMap` spawns at `index`, if any: pieces spawn on dark cells, the
      opponent's on the three top rows and the local player's on the three bottom rows, on the host
      always and on the client only when restarting. */
  function SpawnAt(player: CheckersColor, restarting: bool, index: nat): Option<CheckersColor>
  {
    var row := index / BoardWidth;
    if DarkCell(index) && (player == Dark || (player == Light && restarting)) then
      if row < SpawnTopPieceRow then Some(Opponent(player))
      else if row > SpawnBottomPieceRow then Some(player)
      else None
    else None
  }

  /** A new piece of `color` on the tile, recorded in `my` if `mine`, else in `other`. */
  function Spawn(m: GameModel, index: nat, color: CheckersColor, mine: bool): GameModel
    requires Sized(m) && IsIndex(index)
  {
    m.(tiles := m.tiles[index := m.tiles[index].SetPiece(Some(NewPiece(color)))],
       my := if mine then m.my + {index} else m.my,
       other := if mine then m.other else m.other + {index})
  }

  /** One cell of the nested loops of `InitMap`: the cell at column `col` of row `row`. */
  function InitCell(m: GameModel, restarting: bool, row: nat, col: nat): GameModel
    requires Sized(m) && row < BoardHeight && col < BoardWidth
  {
    var index := GetIndexFromPos(col, row);
    var placed := m.(tiles := m.tiles[index := m.tiles[index].SetPosition(col, row)]);
    if (row + col) % 2 == 1 then
      if m.player == Light && restarting then
        if row < SpawnTopPieceRow then Spawn(placed, index, Dark, false)
        else if row > SpawnBottomPieceRow then Spawn(placed, index, Light, true)
        else placed
      else if m.player == Dark then
        if row < SpawnTopPieceRow then Spawn(placed, index, Light, false)
        else if row > SpawnBottomPieceRow then Spawn(placed, index, Dark, true)
        else placed
      else placed
    else placed.(tiles := placed.tiles[index := placed.tiles[index].SetSide(Light)])
  }

  /** The inner loop of `InitMap`: the first `cols` cells of row `row`. */
  function InitCols(m: GameModel, restarting: bool, row: nat, cols: nat): (r: GameModel)
    requires Sized(m) && row < BoardHeight && cols <= BoardWidth
    ensures Sized(r)
  {
    if cols == 0 then m else InitCell(InitCols(m, restarting, row, cols - 1), restarting, row, cols - 1)
  }

  lemma InitColsNext(m: GameModel, restarting: bool, row: nat, col: nat)
    requires Sized(m) && row < BoardHeight && col < BoardWidth
    ensures InitCols(m, restarting, row, col + 1) == InitCell(InitCols(m, restarting, row, col), restarting, row, col)
  {
  }

  /** The outer loop of `InitMap`: the first `rows` rows. */
  function InitRows(m: GameModel, restarting: bool, rows: nat): (r: GameModel)
    requires Sized(m) && rows <= BoardHeight
    ensures Sized(r)
  {
    if rows == 0 then m else InitCols(InitRows(m, restarting, rows - 1), restarting, rows - 1, BoardWidth)
  }

  /** `InitMap(isRestarting)`. */
  function InitMap(m: GameModel, restarting: bool): GameModel
    requires Sized(m)
  {
    InitRows(m, restarting, BoardHeight)
  }

  /** The indices below `k` where the local player's pieces spawn, and where the opponent's do. */
  function SpawnedMine(player: CheckersColor, restarting: bool, k: nat): set<nat>
  {
    set i | 0 <= i < k && SpawnAt(player, restarting, i) == Some(player)
  }

  function SpawnedTheirs(player: CheckersColor, restarting: bool, k: nat): set<nat>
  {
    set i | 0 <= i < k && SpawnAt(player, restarting, i).Some? && SpawnAt(player, restarting, i) != Some(player)
  }

  /** What a set-up cell looks like: moved to its grid position, light if it is not a dark cell,
      holding the spawned piece if one spawns there, and otherwise the piece it held. */
  predicate CellSetUp(before: Tile, after: Tile, player: CheckersColor, restarting: bool, index: nat)
  {
    && after.rect == before.rect.(x := (index % BoardWidth) * TileWidth, y := (index / BoardWidth) * TileHeight)
    && after.side == (if DarkCell(index) then before.side else Light)
    && after.highLighted == before.highLighted
    && match SpawnAt(player, restarting, index)
       case Some(c) => after.piece == Some(NewPiece(c).SetPosition(after.rect))
       case None => after.piece == before.piece
  }

  /** One cell: only its own tile changes, as `CellSetUp` says, and its spawned piece is recorded. */
  lemma InitCellEffect(m: GameModel, restarting: bool, row: nat, col: nat)
    requires Sized(m) && row < BoardHeight && col < BoardWidth
    ensures var i := GetIndexFromPos(col, row);
      var r := InitCell(m, restarting, row, col);
      && Sized(r) && r.player == m.player && r.doneInit == m.doneInit && r.danger == m.danger
      && CellSetUp(m.tiles[i], r.tiles[i], m.player, restarting, i)
      && (forall j | 0 <= j < BoardSize && j != i :: r.tiles[j] == m.tiles[j])
      && r.my == m.my + (if SpawnAt(m.player, restarting, i) == Some(m.player) then {i} else {})
      && r.other == m.other
           + (if SpawnAt(m.player, restarting, i).Some? && SpawnAt(m.player, restarting, i) != Some(m.player) then {i} else {})
  {
    var i := GetIndexFromPos(col, row);
    assert i / BoardWidth == row && i % BoardWidth == col;
    assert DarkCell(i) <==> (row + col) % 2 == 1;
    if (row + col) % 2 == 1 {
      DarkCellEffect(m, restarting, row, col, i);
    }
  }

  /** `InitCellEffect` on a dark cell, where a piece may spawn. */
  lemma DarkCellEffect(m: GameModel, restarting: bool, row: nat, col: nat, i: nat)
    requires Sized(m) && row < BoardHeight && col < BoardWidth && (row + col) % 2 == 1
    requires i == GetIndexFromPos(col, row) && i / BoardWidth == row && DarkCell(i)
    ensures var r := InitCell(m, restarting, row, col);
      && Sized(r) && r.player == m.player && r.doneInit == m.doneInit && r.danger == m.danger
      && CellSetUp(m.tiles[i], r.tiles[i], m.player, restarting, i)
      && (forall j | 0 <= j < BoardSize && j != i :: r.tiles[j] == m.tiles[j])
      && r.my == m.my + (if SpawnAt(m.player, restarting, i) == Some(m.player) then {i} else {})
      && r.other == m.other
           + (if SpawnAt(m.player, restarting, i).Some? && SpawnAt(m.player, restarting, i) != Some(m.player) then {i} else {})
  {
  }

  lemma SpawnedStep(player: CheckersColor, restarting: bool, k: nat)
    ensures SpawnedMine(player, restarting, k + 1)
         == SpawnedMine(player, restarting, k) + (if SpawnAt(player, restarting, k) == Some(player) then {k} else {})
    ensures SpawnedTheirs(player, restarting, k + 1)
         == SpawnedTheirs(player, restarting, k)
          + (if SpawnAt(player, restarting, k).Some? && SpawnAt(player, restarting, k) != Some(player) then {k} else {})
  {
  }

  /** The cells below `i` stay set up when cell `i`, still untouched, is set up. */
  lemma CellsStep(m: seq<Tile>, p: seq<Tile>, r: seq<Tile>, player: CheckersColor, restarting: bool, i: nat)
    requires |m| == |p| == |r| == BoardSize && i < BoardSize
    requires forall j | 0 <= j < i :: CellSetUp(m[j], p[j], player, restarting, j)
    requires forall j | i <= j < BoardSize :: p[j] == m[j]
    requires CellSetUp(p[i], r[i], player, restarting, i)
    requires forall j | 0 <= j < BoardSize && j != i :: r[j] == p[j]
    ensures forall j | 0 <= j < i + 1 :: CellSetUp(m[j], r[j], player, restarting, j)
    ensures forall j | i + 1 <= j < BoardSize :: r[j] == m[j]
  {
    forall j | 0 <= j < i + 1 ensures CellSetUp(m[j], r[j], player, restarting, j) {
      if j < i {
        assert r[j] == p[j];
      } else {
        assert p[j] == m[j];
      }
    }
  }

  /** `r` is `m` with its first `k` cells set up, in row-major order, and the rest untouched. */
  ghost predicate SetUpBelow(m: GameModel, r: GameModel, restarting: bool, k: nat)
    requires Sized(m) && Sized(r) && k <= BoardSize
  {
    && r.player == m.player && r.doneInit == m.doneInit && r.danger == m.danger
    && (forall i | 0 <= i < k :: CellSetUp(m.tiles[i], r.tiles[i], m.player, restarting, i))
    && (forall i | k <= i < BoardSize :: r.tiles[i] == m.tiles[i])
    && r.my == m.my + SpawnedMine(m.player, restarting, k)
    && r.other == m.other + SpawnedTheirs(m.player, restarting, k)
  }

  lemma SetUpNextCell(m: GameModel, p: GameModel, r: GameModel, restarting: bool, row: nat, col: nat, i: nat, k: nat)
    requires Sized(m) && Sized(p) && row < BoardHeight && col < BoardWidth && i == GetIndexFromPos(col, row)
    requires SetUpBelow(m, p, restarting, i)
    requires r == InitCell(p, restarting, row, col) && k == i + 1
    ensures Sized(r) && SetUpBelow(m, r, restarting, k)
  {
    InitCellEffect(p, restarting, row, col);
    SpawnedStep(m.player, restarting, i);
    CellsStep(m.tiles, p.tiles, r.tiles, m.player, restarting, i);
  }

  /** The inner loop sets up the cells of its row one after the other. */
  lemma {:induction false} InitColsEffect(m: GameModel, p: GameModel, restarting: bool, row: nat, cols: nat)
    requires Sized(m) && Sized(p) && row < BoardHeight && cols <= BoardWidth
    requires SetUpBelow(m, p, restarting, GetIndexFromPos(0, row))
    ensures SetUpBelow(m, InitCols(p, restarting, row, cols), restarting, GetIndexFromPos(0, row) + cols)
  {
    if cols != 0 {
      InitColsEffect(m, p, restarting, row, cols - 1);
      InitColsStep(m, p, restarting, row, cols);
    }
  }

  lemma InitColsStep(m: GameModel, p: GameModel, restarting: bool, row: nat, cols: nat)
    requires Sized(m) && Sized(p) && row < BoardHeight && 0 < cols <= BoardWidth
    requires SetUpBelow(m, InitCols(p, restarting, row, cols - 1), restarting, GetIndexFromPos(0, row) + (cols - 1))
    ensures SetUpBelow(m, InitCols(p, restarting, row, cols), restarting, GetIndexFromPos(0, row) + cols)
  {
    SetUpNextCell(m, InitCols(p, restarting, row, cols - 1), InitCols(p, restarting, row, cols), restarting,
                  row, cols - 1, GetIndexFromPos(0, row) + (cols - 1), GetIndexFromPos(0, row) + cols);
  }

  /** The outer loop sets up its rows one after the other. */
  lemma {:induction false} InitRowsEffect(m: GameModel, restarting: bool, rows: nat)
    requires Sized(m) && rows <= BoardHeight
    ensures SetUpBelow(m, InitRows(m, restarting, rows), restarting, GetIndexFromPos(0, rows))
  {
    if rows != 0 {
      InitRowsEffect(m, restarting, rows - 1);
      InitColsEffect(m, InitRows(m, restarting, rows - 1), restarting, rows - 1, BoardWidth);
    }
  }

  /** The dark cells of the three bottom rows, and of the three top rows. */
  const BottomCells: set<nat> := {40, 42, 44, 46, 49, 51, 53, 55, 56, 58, 60, 62}
  const TopCells: set<nat> := {1, 3, 5, 7, 8, 10, 12, 14, 17, 19, 21, 23}

  lemma CellCounts()
    ensures |BottomCells| == 12 && |TopCells| == 12
  {
    BottomCount();
    TopCount();
  }

  lemma BottomCount()
    ensures |BottomCells| == 12
  {
    assert |{40}| == 1;
    assert |{40, 42}| == 2;
    assert |{40, 42, 44}| == 3;
    assert |{40, 42, 44, 46}| == 4;
    assert |{40, 42, 44, 46, 49}| == 5;
    assert |{40, 42, 44, 46, 49, 51}| == 6;
    assert |{40, 42, 44, 46, 49, 51, 53}| == 7;
    assert |{40, 42, 44, 46, 49, 51, 53, 55}| == 8;
    assert |{40, 42, 44, 46, 49, 51, 53, 55, 56}| == 9;
    assert |{40, 42, 44, 46, 49, 51, 53, 55, 56, 58}| == 10;
    assert |{40, 42, 44, 46, 49, 51, 53, 55, 56, 58, 60}| == 11;
    assert |{40, 42, 44, 46, 49, 51, 53, 55, 56, 58, 60, 62}| == 12;
  }

  lemma TopCount()
    ensures |TopCells| == 12
  {
    assert |{1}| == 1;
    assert |{1, 3}| == 2;
    assert |{1, 3, 5}| == 3;
    assert |{1, 3, 5, 7}| == 4;
    assert |{1, 3, 5, 7, 8}| == 5;
    assert |{1, 3, 5, 7, 8, 10}| == 6;
    assert |{1, 3, 5, 7, 8, 10, 12}| == 7;
    assert |{1, 3, 5, 7, 8, 10, 12, 14}| == 8;
    assert |{1, 3, 5, 7, 8, 10, 12, 14, 17}| == 9;
    assert |{1, 3, 5, 7, 8, 10, 12, 14, 17, 19}| == 10;
    assert |{1, 3, 5, 7, 8, 10, 12, 14, 17, 19, 21}| == 11;
    assert |{1, 3, 5, 7, 8, 10, 12, 14, 17, 19, 21, 23}| == 12;
  }

  lemma SpawnCells(player: CheckersColor, restarting: bool)
    requires player == Dark || (player == Light && restarting)
    ensures SpawnedMine(player, restarting, BoardSize) == BottomCells
    ensures SpawnedTheirs(player, restarting, BoardSize) == TopCells
  {
    forall i | 0 <= i < BoardSize
      ensures (SpawnAt(player, restarting, i) == Some(player) <==> i in BottomCells)
      ensures (SpawnAt(player, restarting, i) == Some(Opponent(player)) <==> i in TopCells)
    {
      if i < 24 {
        TopRows(player, restarting, i);
      } else if i < 40 {
        assert SpawnAt(player, restarting, i) == None;
      } else {
        BottomRows(player, restarting, i);
      }
    }
  }

  lemma TopRows(player: CheckersColor, restarting: bool, i: nat)
    requires player == Dark || (player == Light && restarting)
    requires i < 24
    ensures SpawnAt(player, restarting, i) == Some(Opponent(player)) <==> i in TopCells
    ensures SpawnAt(player, restarting, i) != Some(player) && i !in BottomCells
  {
  }

  lemma BottomRows(player: CheckersColor, restarting: bool, i: nat)
    requires player == Dark || (player == Light && restarting)
    requires 40 <= i < BoardSize
    ensures SpawnAt(player, restarting, i) == Some(player) <==> i in BottomCells
    ensures SpawnAt(player, restarting, i) != Some(Opponent(player)) && i !in TopCells
  {
  }

  /** `Init(isClient)`: the client plays light and waits for the host's pieces; the host plays dark,
      counts as set up, and spawns both sides. */
  function Init(m: GameModel, isClient: bool): GameModel
    requires Sized(m)
  {
    var chosen := if isClient then m.(player := Light) else m.(doneInit := true, player := Dark);
    InitMap(chosen, false)
  }

  predicate NoPieces(tiles: seq<Tile>)
  {
    forall i | 0 <= i < |tiles| :: tiles[i].piece.None?
  }

  /** Which tiles hold a piece after spawning, and of which colour. */
  predicate SpawnedBoard(tiles: seq<Tile>, player: CheckersColor)
    requires |tiles| == BoardSize && IsPlayer(player)
  {
    forall i | 0 <= i < BoardSize ::
      && (tiles[i].piece.Some? <==> i in BottomCells || i in TopCells)
      && (i in BottomCells ==> tiles[i].piece.value.color == player && !tiles[i].piece.value.isKing)
      && (i in TopCells ==> tiles[i].piece.value.color == Opponent(player) && !tiles[i].piece.value.isKing)
  }

  /** Spawning on a board with no pieces: both sides stand on their starting cells. */
  lemma InitMapSpawns(m: GameModel, restarting: bool)
    requires Sized(m) && (m.player == Dark || (m.player == Light && restarting)) && NoPieces(m.tiles)
    ensures var r := InitMap(m, restarting);
      && Sized(r) && r.player == m.player && r.doneInit == m.doneInit && r.danger == m.danger
      && SpawnedBoard(r.tiles, m.player)
      && r.my == m.my + BottomCells && r.other == m.other + TopCells
  {
    InitRowsEffect(m, restarting, BoardHeight);
    SpawnCells(m.player, restarting);
    var r := InitMap(m, restarting);
    forall i | 0 <= i < BoardSize
      ensures (r.tiles[i].piece.Some? <==> i in BottomCells || i in TopCells)
      ensures i in BottomCells ==> r.tiles[i].piece.value.color == m.player && !r.tiles[i].piece.value.isKing
      ensures i in TopCells ==> r.tiles[i].piece.value.color == Opponent(m.player) && !r.tiles[i].piece.value.isKing
    {
      assert CellSetUp(m.tiles[i], r.tiles[i], m.player, restarting, i);
    }
  }

  /** A freshly spawned board whose sets hold exactly the starting cells is consistent. */
  lemma SpawnedConsistent(m: GameModel)
    requires Sized(m) && IsPlayer(m.player) && SpawnedBoard(m.tiles, m.player)
    requires m.my == BottomCells && m.other == TopCells
    ensures Consistent(m)
  {
  }

  /** The host starts with twelve dark pieces on the dark cells of rows 5 to 7, twelve light ones on
      the dark cells of rows 0 to 2, and a set-up, consistent board. */
  lemma InitHost(m: GameModel)
    requires Sized(m) && NoPieces(m.tiles) && m.my == {} && m.other == {}
    ensures var r := Init(m, false);
      && r.player == Dark && r.doneInit && Consistent(r)
      && r.my == BottomCells && r.other == TopCells
      && |r.my| == 12 && |r.other| == 12
      && SpawnedBoard(r.tiles, Dark)
  {
    var chosen := m.(doneInit := true, player := Dark);
    InitMapSpawns(chosen, false);
    SpawnedConsistent(Init(m, false));
    CellCounts();
  }

  /** The client plays light, places no piece and keeps its sets and its set-up flag. */
  lemma InitClient(m: GameModel)
    requires Sized(m)
    ensures var r := Init(m, true);
      && r.player == Light && r.doneInit == m.doneInit && r.my == m.my && r.other == m.other
      && forall i | 0 <= i < BoardSize :: r.tiles[i].piece == m.tiles[i].piece
  {
    var chosen := m.(player := Light);
    InitRowsEffect(chosen, false, BoardHeight);
    var r := Init(m, true);
    forall i | 0 <= i < BoardSize ensures r.tiles[i].piece == m.tiles[i].piece {
      assert CellSetUp(m.tiles[i], r.tiles[i], Light, false, i);
    }
  }

  /** Every tile without its piece (the loop of `Restart`). */
  function ClearPieces(tiles: seq<Tile>): (r: seq<Tile>)
    ensures |r| == |tiles| && NoPieces(r)
    ensures forall i | 0 <= i < |tiles| :: r[i] == tiles[i].RemovePiece()
  {
    seq(|tiles|, i requires 0 <= i < |tiles| => tiles[i].RemovePiece())
  }

  /** `Restart`: remove every piece and spawn both sides again, as on the host. The index sets are
      not cleared: the spawned indices are added to whatever they held. */
  function Restart(m: GameModel): GameModel
    requires Sized(m)
  {
    InitMap(m.(tiles := ClearPieces(m.tiles)), true)
  }

  /** After a restart both sides stand on their starting cells, and the sets have gained the
      starting cells while keeping every index they held before. */
  lemma RestartBoard(m: GameModel)
    requires Sized(m) && IsPlayer(m.player)
    ensures var r := Restart(m);
      && Sized(r) && r.player == m.player && r.doneInit == m.doneInit && r.danger == m.danger
      && SpawnedBoard(r.tiles, m.player)
      && r.my == m.my + BottomCells && r.other == m.other + TopCells
  {
    InitMapSpawns(m.(tiles := ClearPieces(m.tiles)), true);
  }

  /** Because the sets are not cleared, a restart leaves the board consistent exactly when every
      index the sets held was already a starting cell of the same side. */
  lemma RestartConsistentIff(m: GameModel)
    requires Sized(m) && IsPlayer(m.player)
    ensures Consistent(Restart(m)) <==> m.my <= BottomCells && m.other <= TopCells
  {
    RestartBoard(m);
    StaleIndices(Restart(m), m.my, m.other);
  }

  /** A spawned board whose sets hold the starting cells plus `my` and `other`. */
  lemma StaleIndices(r: GameModel, my: set<nat>, other: set<nat>)
    requires Sized(r) && IsPlayer(r.player) && SpawnedBoard(r.tiles, r.player)
    requires r.my == my + BottomCells && r.other == other + TopCells
    ensures Consistent(r) <==> my <= BottomCells && other <= TopCells
  {
    if Consistent(r) {
      StaleIndicesOnlyIf(r, my, other);
    } else if my <= BottomCells && other <= TopCells {
      assert r.my == BottomCells && r.other == TopCells;
      SpawnedConsistent(r);
    }
  }

  lemma StaleIndicesOnlyIf(r: GameModel, my: set<nat>, other: set<nat>)
    requires Consistent(r) && SpawnedBoard(r.tiles, r.player)
    requires r.my == my + BottomCells && r.other == other + TopCells
    ensures my <= BottomCells && other <= TopCells
  {
    forall i | i in my ensures i in BottomCells {
      assert i in r.my;
    }
    forall i | i in other ensures i in TopCells {
      assert i in r.other;
    }
  }

  // ----- Selection: OnSelected, IsValidMove, ResetSelectedPiece, ResetHighlightedTiles -----

  /** The result of `OnSelected`: the new game and the selected index (`InvalidIndex` if none). */
  datatype Selection = Selection(game: GameModel, index: nat)

  /** The tile under a click holds one of the local player's pieces. */
  predicate Selectable(m: GameModel, index: nat)
    requires Sized(m) && IsIndex(index)
  {
    m.tiles[index].piece.Some? && index in m.my
  }

  /** `OnSelected(mouseX, mouseY)`: a click on one of the local player's pieces lifts it and runs the
      search from its tile, with backward diagonals open if it is a king; any other click changes
      nothing and selects nothing. */
  function OnSelected(m: GameModel, mouseX: int, mouseY: int): (r: Selection)
    requires Sized(m) && InWindow(mouseX, mouseY)
    ensures Sized(r.game)
    ensures r.index != InvalidIndex <==> Selectable(m, GetIndexFromPixel(mouseX, mouseY))
    ensures r.index == InvalidIndex ==> r.game == m
    ensures r.index != InvalidIndex ==> r.index == GetIndexFromPixel(mouseX, mouseY)
    ensures r.game.player == m.player && r.game.doneInit == m.doneInit
    ensures r.game.my == m.my && r.game.other == m.other
  {
    var index := GetIndexFromPixel(mouseX, mouseY);
    if !Selectable(m, index) then Selection(m, InvalidIndex)
    else
      var piece := m.tiles[index].piece.value;
      var lifted := m.tiles[index := m.tiles[index].(piece := Some(piece.OnSelected()))];
      var s := HighLightAll(lifted, m.danger, index, m.player, piece.isKing);
      Selection(m.(tiles := s.tiles, danger := s.danger), index)
  }

  /** `IsValidMove(mouseX, mouseY)`: a click on an offered tile is a move there, capturing the list
      the danger map holds for it (none if it has no entry); a click elsewhere is no move. */
  function IsValidMove(m: GameModel, mouseX: int, mouseY: int): (r: MoveResult)
    requires Sized(m) && InWindow(mouseX, mouseY)
    ensures var dest := GetIndexFromPixel(mouseX, mouseY);
      && (r.destIndex != InvalidIndex <==> m.tiles[dest].highLighted)
      && (r.destIndex != InvalidIndex ==> r.destIndex == dest && r.piecesToKill == Lookup(m.danger, dest))
      && (r.destIndex == InvalidIndex ==> r == DefaultMoveResult())
  {
    var dest := GetIndexFromPixel(mouseX, mouseY);
    if m.tiles[dest].highLighted then MoveResult(dest, Lookup(m.danger, dest)) else DefaultMoveResult()
  }

  /** `ResetSelectedPiece`: put the lifted piece back down. */
  function ResetSelectedPiece(m: GameModel, index: nat): (r: GameModel)
    requires Sized(m) && IsIndex(index)
    ensures Sized(r) && r.player == m.player && r.doneInit == m.doneInit
    ensures r.my == m.my && r.other == m.other && r.danger == m.danger
    ensures forall i | 0 <= i < BoardSize && i != index :: r.tiles[i] == m.tiles[i]
  {
    match m.tiles[index].piece
    case None => m
    case Some(p) => m.(tiles := m.tiles[index := m.tiles[index].(piece := Some(p.UnSelect()))])
  }

  /** `ResetHighlightedTiles`: no tile is offered and the danger map is empty. */
  function ResetHighlights(m: GameModel): (r: GameModel)
    requires Sized(m)
    ensures Sized(r) && NoHighlights(r.tiles) && r.danger == map[]
    ensures forall i | 0 <= i < BoardSize :: r.tiles[i] == m.tiles[i].Reset()
    ensures r.player == m.player && r.doneInit == m.doneInit && r.my == m.my && r.other == m.other
  {
    m.(tiles := seq(BoardSize, i requires 0 <= i < BoardSize => m.tiles[i].Reset()), danger := map[])
  }

  /** No selection is under way: nothing is offered and nothing is marked for capture. */
  predicate Idle(m: GameModel)
  {
    Sized(m) && NoHighlights(m.tiles) && m.danger == map[]
  }

  /** The board with the piece on `index` lifted, which the search of `OnSelected` runs on. */
  function Lifted(tiles: seq<Tile>, index: nat): seq<Tile>
    requires |tiles| == BoardSize && IsIndex(index) && tiles[index].piece.Some?
  {
    tiles[index := tiles[index].(piece := Some(tiles[index].piece.value.OnSelected()))]
  }

  /** Lifting a piece moves it on screen only: the search sees the same board. */
  lemma LiftedOccupants(tiles: seq<Tile>, index: nat)
    requires |tiles| == BoardSize && IsIndex(index) && tiles[index].piece.Some?
    ensures SameOccupants(Lifted(tiles, index), tiles)
    ensures NoHighlights(tiles) ==> NoHighlights(Lifted(tiles, index))
  {
  }

  /** The crown of the selected piece. */
  function KingAt(m: GameModel, index: nat): bool
    requires Sized(m) && IsIndex(index) && m.tiles[index].piece.Some?
  {
    m.tiles[index].piece.value.isKing
  }

  lemma SelectedIsSearch(m: GameModel, mouseX: int, mouseY: int)
    requires Idle(m) && InWindow(mouseX, mouseY) && Selectable(m, GetIndexFromPixel(mouseX, mouseY))
    ensures var index := GetIndexFromPixel(mouseX, mouseY);
      var s := HighLightAll(Lifted(m.tiles, index), map[], index, m.player, KingAt(m, index));
      OnSelected(m, mouseX, mouseY) == Selection(m.(tiles := s.tiles, danger := s.danger), index)
  {
  }

  /** From an idle board, selecting a piece ends with captures on offer exactly when a jump is open
      from its tile. */
  lemma SelectCapturesIffJump(m: GameModel, mouseX: int, mouseY: int)
    requires Idle(m) && InWindow(mouseX, mouseY) && Selectable(m, GetIndexFromPixel(mouseX, mouseY))
    ensures var index := GetIndexFromPixel(mouseX, mouseY);
      OnSelected(m, mouseX, mouseY).game.danger != map[] <==> JumpAvailable(m.tiles, index, m.player, KingAt(m, index))
  {
    var index := GetIndexFromPixel(mouseX, mouseY);
    SelectedIsSearch(m, mouseX, mouseY);
    LiftedOccupants(m.tiles, index);
    SearchCapturesIffJump(Lifted(m.tiles, index), index, m.player, KingAt(m, index));
    OutcomeOnSameOccupants(Lifted(m.tiles, index), m.tiles, index, m.player, KingAt(m, index));
  }

  /** From an idle board, the tiles a selection offers are the landing tiles when a capture is
      possible, and otherwise the empty diagonal neighbours the piece may step to; every offered
      tile is empty. */
  lemma SelectHighlights(m: GameModel, mouseX: int, mouseY: int)
    requires Idle(m) && InWindow(mouseX, mouseY) && Selectable(m, GetIndexFromPixel(mouseX, mouseY))
    ensures var index := GetIndexFromPixel(mouseX, mouseY);
      var g := OnSelected(m, mouseX, mouseY).game;
      && HighlightFacts(Search(g.tiles, g.danger, map[], []), m.tiles, index, KingAt(m, index))
      && forall i | 0 <= i < BoardSize && g.tiles[i].highLighted :: m.tiles[i].piece.None?
  {
    var index := GetIndexFromPixel(mouseX, mouseY);
    var lifted := Lifted(m.tiles, index);
    var king := KingAt(m, index);
    SelectedIsSearch(m, mouseX, mouseY);
    LiftedOccupants(m.tiles, index);
    SearchHighlights(lifted, index, m.player, king);
    SearchLandingsEmpty(lifted, index, m.player, king);
    OutcomeOnSameOccupants(lifted, m.tiles, index, m.player, king);
    HighlightsOnSameOccupants(HighLightAll(lifted, map[], index, m.player, king), lifted, m.tiles, index, king);
  }

  lemma HighlightsOnSameOccupants(r: Search, a: seq<Tile>, b: seq<Tile>, index: nat, king: bool)
    requires |a| == BoardSize && IsIndex(index) && SameOccupants(a, b)
    requires PlainSteps(a, index, king) == PlainSteps(b, index, king)
    requires HighlightFacts(r, a, index, king) && LandingsFree(r, a)
    ensures HighlightFacts(Search(r.tiles, r.danger, map[], []), b, index, king)
    ensures forall i | 0 <= i < BoardSize && r.tiles[i].highLighted :: b[i].piece.None?
  {
  }

  /** From a consistent idle board, a selection marks only opponent pieces for capture, each at
      most once. */
  lemma SelectCaptures(m: GameModel, mouseX: int, mouseY: int)
    requires Idle(m) && Consistent(m) && InWindow(mouseX, mouseY) && Selectable(m, GetIndexFromPixel(mouseX, mouseY))
    ensures var g := OnSelected(m, mouseX, mouseY).game;
      && NoDoubleCapture(g.danger)
      && CapturesOpponents(g.danger, m.tiles, m.player)
      && Captured(g.danger) <= m.other
      && Consistent(g) && SameOccupants(g.tiles, m.tiles)
  {
    var index := GetIndexFromPixel(mouseX, mouseY);
    var lifted := Lifted(m.tiles, index);
    var king := KingAt(m, index);
    SelectedIsSearch(m, mouseX, mouseY);
    LiftedOccupants(m.tiles, index);
    SearchCaptures(lifted, index, m.player, king);
    var s := HighLightAll(lifted, map[], index, m.player, king);
    CapturesOnSameOccupants(s.danger, lifted, m.tiles, m.player);
    OpponentsAreOther(m, s.danger);
    ConsistentOnSameOccupants(m, s.tiles);
  }

  lemma OpponentsAreOther(m: GameModel, danger: map<nat, seq<nat>>)
    requires Consistent(m) && CapturesOpponents(danger, m.tiles, m.player)
    ensures Captured(danger) <= m.other
  {
    forall x | x in Captured(danger) ensures x in m.other {
      var k :| k in danger && x in danger[k];
      assert HoldsOpponent(m.tiles[x], m.player);
    }
  }

  /** Consistency is about which colour stands where, so a board with the same occupants keeps it. */
  lemma ConsistentOnSameOccupants(m: GameModel, tiles: seq<Tile>)
    requires Consistent(m) && SameOccupants(tiles, m.tiles)
    ensures Consistent(m.(tiles := tiles))
  {
  }

  /** A selection that is dropped on a tile not on offer, and then cleared, leaves the game exactly as
      it was: the piece is put back down and the offers are withdrawn. */
  lemma CancelRestores(m: GameModel, mouseX: int, mouseY: int)
    requires Idle(m) && InWindow(mouseX, mouseY) && Selectable(m, GetIndexFromPixel(mouseX, mouseY))
    ensures var r := OnSelected(m, mouseX, mouseY);
      ResetHighlights(ResetSelectedPiece(r.game, r.index)) == m
  {
    var index := GetIndexFromPixel(mouseX, mouseY);
    var lifted := Lifted(m.tiles, index);
    var king := KingAt(m, index);
    SelectedIsSearch(m, mouseX, mouseY);
    var s := HighLightAll(lifted, map[], index, m.player, king);
    var g := m.(tiles := s.tiles, danger := s.danger);
    var back := ResetHighlights(ResetSelectedPiece(g, index));
    assert SameButHighlights(s.tiles, lifted);
    SelectThenUnselect(m.tiles[index].piece.value);
    forall i | 0 <= i < BoardSize ensures back.tiles[i] == m.tiles[i] {
      assert s.tiles[i].piece == lifted[i].piece;
    }
    assert back.tiles == m.tiles;
  }

  // ----- A drop, as its MOVE and KILL lines are applied -----

  predicate AllIndices(l: seq<nat>) { forall i | 0 <= i < |l| :: IsIndex(l[i]) }

  /** `KillPieceAt` for each index of the list, in list order. */
  function KillAll(m: GameModel, kills: seq<nat>): (r: GameModel)
    requires Sized(m) && AllIndices(kills)
    ensures Sized(r) && r.player == m.player && r.doneInit == m.doneInit && r.danger == m.danger
    decreases |kills|
  {
    if kills == [] then m else KillAll(KillPieceAt(m, kills[0]), kills[1..])
  }

  /** On a consistent board, killing a list of tiles empties exactly those tiles and takes them out
      of both index sets. */
  lemma {:induction false} KillAllEffect(m: GameModel, kills: seq<nat>)
    requires Consistent(m) && AllIndices(kills)
    ensures var r := KillAll(m, kills);
      && Consistent(r)
      && (forall i | 0 <= i < BoardSize :: r.tiles[i].piece == if i in kills then None else m.tiles[i].piece)
      && r.my == m.my - set x | x in kills && r.other == m.other - set x | x in kills
    decreases |kills|
  {
    if kills != [] {
      KillKeepsConsistent(m, kills[0]);
      KillAllEffect(KillPieceAt(m, kills[0]), kills[1..]);
      assert forall x :: x in kills <==> x == kills[0] || x in kills[1..];
    }
  }

  /** Distinct members of a set: removing them lowers its size by their number. */
  lemma {:induction false} RemoveDistinct(s: set<nat>, l: seq<nat>)
    requires NoDup(l) && forall i | 0 <= i < |l| :: l[i] in s
    ensures |s - set x | x in l| == |s| - |l|
    decreases |l|
  {
    if l != [] {
      var rest := l[1..];
      assert forall i | 0 <= i < |rest| :: rest[i] == l[i + 1];
      RemoveDistinct(s - {l[0]}, rest);
      assert (s - {l[0]}) - (set x | x in rest) == s - set x | x in l;
    }
  }

  /** A legal drop, from an idle and consistent board: the destination is an empty tile other than
      the selected one, every captured tile holds an opponent piece and none is captured twice; once
      the MOVE and KILL lines are applied, the board still agrees with the index sets and the
      opponent has lost exactly as many pieces as were captured. */
  lemma LegalDrop(m: GameModel, selectX: int, selectY: int, dropX: int, dropY: int)
    requires Idle(m) && Consistent(m) && InWindow(selectX, selectY) && InWindow(dropX, dropY)
    requires Selectable(m, GetIndexFromPixel(selectX, selectY))
    ensures var sel := OnSelected(m, selectX, selectY);
      var mv := IsValidMove(sel.game, dropX, dropY);
      mv.destIndex != InvalidIndex ==>
        && IsIndex(mv.destIndex) && m.tiles[mv.destIndex].piece.None? && mv.destIndex != sel.index
        && NoDup(mv.piecesToKill)
        && (forall i | 0 <= i < |mv.piecesToKill| :: mv.piecesToKill[i] in m.other)
        && var after := KillAll(MovePiece(ResetHighlights(sel.game), sel.index, mv.destIndex), mv.piecesToKill);
           Consistent(after) && |after.other| == |m.other| - |mv.piecesToKill|
  {
    var sel := OnSelected(m, selectX, selectY);
    SelectHighlights(m, selectX, selectY);
    SelectCaptures(m, selectX, selectY);
    DropOn(m, sel.game, sel.index, dropX, dropY);
  }

  /** `LegalDrop` for any game that a selection on `m` can have produced. */
  lemma DropOn(m: GameModel, g: GameModel, from: nat, dropX: int, dropY: int)
    requires Consistent(m) && InWindow(dropX, dropY) && IsIndex(from) && from in m.my
    requires Consistent(g) && SameOccupants(g.tiles, m.tiles)
    requires g.my == m.my && g.other == m.other && g.player == m.player
    requires forall i | 0 <= i < BoardSize && g.tiles[i].highLighted :: m.tiles[i].piece.None?
    requires NoDoubleCapture(g.danger) && Captured(g.danger) <= m.other
    ensures var mv := IsValidMove(g, dropX, dropY);
      mv.destIndex != InvalidIndex ==>
        && IsIndex(mv.destIndex) && m.tiles[mv.destIndex].piece.None? && mv.destIndex != from
        && NoDup(mv.piecesToKill)
        && (forall i | 0 <= i < |mv.piecesToKill| :: mv.piecesToKill[i] in m.other)
        && var after := KillAll(MovePiece(ResetHighlights(g), from, mv.destIndex), mv.piecesToKill);
           Consistent(after) && |after.other| == |m.other| - |mv.piecesToKill|
  {
    var mv := IsValidMove(g, dropX, dropY);
    if mv.destIndex != InvalidIndex {
      var dest, kills := mv.destIndex, mv.piecesToKill;
      assert NoDup(kills) by {
        if dest in g.danger {
          assert kills == g.danger[dest];
        }
      }
      if dest in g.danger {
        forall i | 0 <= i < |kills| ensures kills[i] in m.other {
          assert kills[i] in g.danger[dest];
          assert kills[i] in Captured(g.danger);
        }
      }
      var r := ResetHighlights(g);
      assert Consistent(r) by {
        ConsistentOnSameOccupants(g, r.tiles);
      }
      ApplyDrop(r, from, dest, kills);
    }
  }

  /** The MOVE and KILL lines of a drop onto an empty tile, capturing distinct opponent pieces. */
  lemma ApplyDrop(m: GameModel, from: nat, dest: nat, kills: seq<nat>)
    requires Consistent(m) && IsIndex(from) && IsIndex(dest) && from != dest
    requires from in m.my && m.tiles[dest].piece.None?
    requires NoDup(kills) && forall i | 0 <= i < |kills| :: kills[i] in m.other
    ensures AllIndices(kills)
    ensures var after := KillAll(MovePiece(m, from, dest), kills);
      Consistent(after) && |after.other| == |m.other| - |kills|
  {
    assert AllIndices(kills);
    MoveKeepsConsistent(m, from, dest);
    MoveCrowns(m, from, dest);
    KillsLowerCount(MovePiece(m, from, dest), kills);
  }

  lemma KillsLowerCount(m: GameModel, kills: seq<nat>)
    requires Consistent(m) && NoDup(kills) && forall i | 0 <= i < |kills| :: kills[i] in m.other
    ensures AllIndices(kills)
    ensures Consistent(KillAll(m, kills)) && |KillAll(m, kills).other| == |m.other| - |kills|
  {
    KillAllEffect(m, kills);
    RemoveDistinct(m.other, kills);
  }
}
