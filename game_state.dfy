/**
 * The `GameState` class (Source/Checkers/GameState.h, GameState.cpp): the 64 tiles in a fixed
 * array updated in place, the local player's colour, the set-up flag, the two index sets and the
 * danger map of the current selection. Every method is specified by the function of `GameRules`
 * it implements, through the abstract value `Model()`.
 */
module GameStates {
  import opened Wrappers
  import opened CheckersConstants
  import opened Pieces
  import opened Tiles
  import opened MoveSearch
  import opened GameRules

  /** The members of `s`, each once, in the order the set happens to yield them. */
  method Enumerate(s: set<nat>) returns (l: seq<nat>)
    ensures Members(l) == s && NoDup(l) && |l| == |s|
  {
    l := [];
    var rest := s;
    while rest != {}
      invariant Members(l) + rest == s
      invariant forall x | x in l :: x !in rest
      invariant NoDup(l)
      decreases rest
    {
      var x :| x in rest;
      EnumerateStep(s, l, rest, x);
      l := l + [x];
      rest := rest - {x};
    }
    DistinctCount(l);
  }

  /** One turn of the loop of `Enumerate`: `x` moves from the set still to visit to the list. */
  lemma EnumerateStep(s: set<nat>, l: seq<nat>, rest: set<nat>, x: nat)
    requires Members(l) + rest == s && (forall y | y in l :: y !in rest) && NoDup(l) && x in rest
    ensures Members(l + [x]) + (rest - {x}) == s && (forall y | y in l + [x] :: y !in rest - {x})
    ensures NoDup(l + [x])
  {
    assert forall i | 0 <= i < |l| :: (l + [x])[i] == l[i];
    assert Members(l + [x]) == Members(l) + {x};
  }

  function Members(l: seq<nat>): set<nat>
  {
    set x | x in l
  }

  lemma {:induction false} DistinctCount(l: seq<nat>)
    requires NoDup(l)
    ensures |Members(l)| == |l|
    decreases |l|
  {
    if l != [] {
      var last := l[|l| - 1];
      var init := l[..|l| - 1];
      assert forall i | 0 <= i < |init| :: init[i] == l[i] && l[i] != last;
      DistinctCount(init);
      assert last !in Members(init);
      assert Members(l) == Members(init) + {last};
    }
  }

  /** The four calls of one turn of the search loop make up one `Expand`. */
  lemma ExpandInSteps(s: Search, cur: nat, player: CheckersColor, king: bool, s1: Search, s2: Search, s3: Search, s4: Search)
    requires Wf(s) && IsIndex(cur)
    requires s1 == ProcessTile(s, cur, LeftFwd, player, king)
    requires s2 == ProcessTile(s1, cur, LeftBack, player, king)
    requires s3 == ProcessTile(s2, cur, RightFwd, player, king)
    requires s4 == ProcessTile(s3, cur, RightBack, player, king)
    ensures s4 == Expand(s, cur, player, king)
  {
  }

  /** One turn of the search loop, from `s` to `next`, leaves what the search will find unchanged
      and brings it closer to its end. */
  /** `ProcessTile` once the plain step has been recorded in `s1`. */
  lemma ProcessTileCases(s: Search, cur: nat, d: Dir, player: CheckersColor, king: bool, s1: Search)
    requires Wf(s) && IsIndex(cur)
    requires s1 == if StepOpen(s.tiles, cur, d, king) then s.(moveMap := s.moveMap[d := Diagonal(cur, d, 1).value]) else s
    ensures Wf(s1) && s1.tiles == s.tiles && s1.danger == s.danger && s1.queue == s.queue
    ensures JumpOpen(s1.tiles, cur, d, player, king) && !InDanger(s1.danger, Diagonal(cur, d, 1).value) ==>
      ProcessTile(s, cur, d, player, king) == Jump(s1, cur, Diagonal(cur, d, 1).value, Diagonal(cur, d, 2).value)
    ensures !(JumpOpen(s1.tiles, cur, d, player, king) && !InDanger(s1.danger, Diagonal(cur, d, 1).value)) ==>
      ProcessTile(s, cur, d, player, king) == s1
  {
  }

  /** One turn of the loop that highlights the plain steps. */
  lemma HighlightStep(before: seq<Tile>, after: seq<Tile>, moveMap: map<Dir, nat>, dirs: seq<Dir>, k: nat)
    requires |before| == BoardSize && MoveMapOk(moveMap) && k < |dirs|
    requires var d := dirs[k];
      after == if d in moveMap && moveMap[d] != InvalidIndex
               then before[moveMap[d] := before[moveMap[d]].SetHighLighted()] else before
    ensures |after| == BoardSize
    ensures HighlightSteps(before, moveMap, dirs[k..]) == HighlightSteps(after, moveMap, dirs[k + 1..])
  {
    assert dirs[k..][1..] == dirs[k + 1..];
  }

  lemma AppendNext(base: seq<nat>, l: seq<nat>, i: nat)
    requires i < |l|
    ensures base + l[..i + 1] == base + l[..i] + [l[i]]
  {
    assert l[..i + 1] == l[..i] + [l[i]];
  }

  /** The dark-cell flag of `InitMap`: false on the first cell, toggled on every step. */
  predicate Odd(n: nat)
  {
    n != 0 && !Odd(n - 1)
  }

  lemma {:induction false} OddIsRemainder(n: nat)
    ensures Odd(n) == (n % 2 == 1)
  {
    if n != 0 {
      OddIsRemainder(n - 1);
    }
  }

  lemma OddNext(n: nat, m: nat)
    requires m == n + 1
    ensures Odd(m) == !Odd(n)
  {
  }

  /** A row is as wide as an even number of steps, so the flag ends a row as it started it. */
  lemma OddRow(n: nat)
    ensures Odd(n + BoardWidth) == Odd(n)
  {
    OddIsRemainder(n);
    OddIsRemainder(n + BoardWidth);
  }

  lemma QueueMeasure(s: Search, next: Search, player: CheckersColor, king: bool)
    requires Wf(s) && s.queue != []
    requires next == Expand(s.(queue := s.queue[1..]), s.queue[0], player, king)
    ensures Wf(next) && Remaining(next, player) < Remaining(s, player)
  {
    ExpandMeasure(s.(queue := s.queue[1..]), s.queue[0], player, king);
  }

  /** `n` turns of the search loop from `s` (fewer if the queue runs dry). */
  ghost function Advance(s: Search, player: CheckersColor, king: bool, n: nat): (r: Search)
    requires Wf(s)
    ensures Wf(r)
    decreases n
  {
    if n == 0 then s
    else
      var a := Advance(s, player, king, n - 1);
      if a.queue == [] then a else Expand(a.(queue := a.queue[1..]), a.queue[0], player, king)
  }

  /** `s` is where the search loop stands after some number of turns from `start`. */
  ghost predicate Reaches(start: Search, s: Search, player: CheckersColor, king: bool)
    requires Wf(start)
  {
    exists n: nat :: Advance(start, player, king, n) == s
  }

  /** No turn changes the final result of the search. */
  lemma {:induction false} AdvanceExplore(s: Search, player: CheckersColor, king: bool, n: nat)
    requires Wf(s)
    ensures Explore(Advance(s, player, king, n), player, king) == Explore(s, player, king)
    decreases n
  {
    if n != 0 {
      var a := Advance(s, player, king, n - 1);
      AdvanceExplore(s, player, king, n - 1);
      if a.queue != [] {
        ExploreStep(a, player, king);
      }
    }
  }

  /** One turn of the search loop does not change its final result. */
  lemma ExploreStep(a: Search, player: CheckersColor, king: bool)
    requires Wf(a) && a.queue != []
    ensures Wf(Expand(a.(queue := a.queue[1..]), a.queue[0], player, king))
    ensures Explore(Expand(a.(queue := a.queue[1..]), a.queue[0], player, king), player, king) == Explore(a, player, king)
  {
    ExpandMeasure(a.(queue := a.queue[1..]), a.queue[0], player, king);
  }

  lemma ReachesStart(start: Search, player: CheckersColor, king: bool)
    requires Wf(start)
    ensures Reaches(start, start, player, king)
  {
    assert Advance(start, player, king, 0) == start;
  }

  lemma ReachesNext(start: Search, s: Search, player: CheckersColor, king: bool)
    requires Wf(start) && Wf(s) && s.queue != [] && Reaches(start, s, player, king)
    ensures Reaches(start, Expand(s.(queue := s.queue[1..]), s.queue[0], player, king), player, king)
  {
    var n: nat :| Advance(start, player, king, n) == s;
    assert Advance(start, player, king, n + 1) == Expand(s.(queue := s.queue[1..]), s.queue[0], player, king);
  }

  /** Once the queue is empty, the state reached is the result of the search. */
  lemma ReachesEnd(start: Search, s: Search, player: CheckersColor, king: bool)
    requires Wf(start) && Wf(s) && s.queue == [] && Reaches(start, s, player, king)
    ensures s == Explore(start, player, king)
  {
    var n: nat :| Advance(start, player, king, n) == s;
    AdvanceExplore(start, player, king, n);
  }

  /** How `HighLightAll` finishes, once the search has ended in `e`. */
  lemma FinishHighLightAll(tiles: seq<Tile>, danger: map<nat, seq<nat>>, origin: nat, player: CheckersColor, king: bool, e: Search)
    requires |tiles| == BoardSize && IsIndex(origin)
    requires e == Explore(Search(tiles, danger, InitialMoveMap, [origin]), player, king)
    ensures Wf(e)
    ensures e.danger == map[] ==> HighLightAll(tiles, danger, origin, player, king) == e.(tiles := HighlightSteps(e.tiles, e.moveMap, MoveMapOrder))
    ensures e.danger != map[] ==> HighLightAll(tiles, danger, origin, player, king) == e
  {
  }

  class GameState {
    const tiles: array<Tile>
    var currentPlayer: CheckersColor
    var doneInit: bool
    var myPieces: set<nat>
    var otherPieces: set<nat>
    var pieceInDanger: map<nat, seq<nat>>

    ghost predicate Valid()
      reads this
    {
      tiles.Length == BoardSize
    }

    /** The abstract value of the game. */
    function Model(): (m: GameModel)
      reads this, tiles
      ensures Valid() ==> Sized(m)
    {
      GameModel(tiles[..], currentPlayer, doneInit, myPieces, otherPieces, pieceInDanger)
    }

    /** `GameState()`. */
    constructor ()
      ensures Valid() && fresh(tiles) && Model() == NewGame()
    {
      tiles := new Tile[BoardSize](_ => NewTile());
      currentPlayer := Dark;
      doneInit := false;
      myPieces := {};
      otherPieces := {};
      pieceInDanger := map[];
      new;
      assert tiles[..] == NewGame().tiles;
    }

    /** `Init(isClient)`. */
    method Init(isClient: bool)
      requires Valid()
      modifies this, tiles
      ensures Valid() && Model() == GameRules.Init(old(Model()), isClient)
    {
      if isClient {
        currentPlayer := Light;
      } else {
        doneInit := true;
        currentPlayer := Dark;
      }
      InitMap(false);
    }

    /** `CheckerWinner`. */
    method CheckerWinner() returns (w: CheckersColor)
      ensures w == Winner(Model())
    {
      if !doneInit {
        return Continue;
      }
      if |myPieces| <= 0 {
        return if currentPlayer == Dark then Light else Dark;
      }
      if |otherPieces| <= 0 {
        return currentPlayer;
      }
      return Continue;
    }

    /** `OnSelected(mouseX, mouseY)`. */
    method OnSelected(mouseX: int, mouseY: int) returns (index: nat)
      requires Valid() && InWindow(mouseX, mouseY)
      modifies tiles, this`pieceInDanger
      ensures Valid() && Selection(Model(), index) == GameRules.OnSelected(old(Model()), mouseX, mouseY)
    {
      index := GetIndexFromPixel(mouseX, mouseY);
      var selected := tiles[index].piece;
      if selected.None? || index !in myPieces {
        return InvalidIndex;
      }
      tiles[index] := tiles[index].(piece := Some(selected.value.OnSelected()));
      HighLightAllPossibleTiles(index);
    }

    /** `ResetSelectedPiece(tileIndex)`. */
    method ResetSelectedPiece(tileIndex: nat)
      requires Valid() && IsIndex(tileIndex)
      modifies tiles
      ensures Model() == GameRules.ResetSelectedPiece(old(Model()), tileIndex)
    {
      match tiles[tileIndex].piece
      case None =>
      case Some(p) => tiles[tileIndex] := tiles[tileIndex].(piece := Some(p.UnSelect()));
    }

    /** `IsValidMove(mouseX, mouseY)`. */
    method IsValidMove(mouseX: int, mouseY: int) returns (result: MoveResult)
      requires Valid() && InWindow(mouseX, mouseY)
      ensures result == GameRules.IsValidMove(Model(), mouseX, mouseY)
    {
      var destIndex := GetIndexFromPixel(mouseX, mouseY);
      result := DefaultMoveResult();
      if tiles[destIndex].highLighted {
        result := result.(destIndex := destIndex);
        if destIndex in pieceInDanger {
          result := result.(piecesToKill := pieceInDanger[destIndex]);
        }
      }
    }

    /** `Restart`: remove every piece, then set the board up again. */
    method Restart()
      requires Valid()
      modifies this, tiles
      ensures Valid() && Model() == GameRules.Restart(old(Model()))
    {
      var i := 0;
      while i < tiles.Length
        modifies tiles
        invariant 0 <= i <= tiles.Length
        invariant forall j | 0 <= j < i :: tiles[j] == old(tiles[j]).RemovePiece()
        invariant forall j | i <= j < tiles.Length :: tiles[j] == old(tiles[j])
      {
        tiles[i] := tiles[i].RemovePiece();
        i := i + 1;
      }
      assert tiles[..] == ClearPieces(old(tiles[..]));
      InitMap(true);
    }

    /** `GetAllPiecesIndex`, on the host only: the indices of the dark pieces (the local ones) and
        of the light pieces, each once, in the unspecified order of the sets. */
    method GetAllPiecesIndex() returns (dark: seq<nat>, light: seq<nat>)
      requires currentPlayer == Dark
      ensures Members(dark) == myPieces && NoDup(dark) && |dark| == |myPieces|
      ensures Members(light) == otherPieces && NoDup(light) && |light| == |otherPieces|
    {
      dark := Enumerate(myPieces);
      light := Enumerate(otherPieces);
    }

    /** `PlacePiece(side, index)`, on the client only. */
    method PlacePiece(side: CheckersColor, index: nat)
      requires Valid() && IsIndex(index) && currentPlayer == Light
      modifies this, tiles
      ensures Valid() && Model() == GameRules.PlacePiece(old(Model()), side, index)
    {
      tiles[index] := tiles[index].SetPiece(Some(NewPiece(side)));
      if side == currentPlayer {
        myPieces := myPieces + {index};
      } else {
        otherPieces := otherPieces + {index};
      }
      if |myPieces| > 0 && |otherPieces| > 0 {
        doneInit := true;
      }
    }

    /** `InitMap(isRestarting)`: the nested row and column loops, with the dark-cell flag toggled
        after every cell and again after every row. */
    method InitMap(isRestarting: bool)
      requires Valid()
      modifies tiles, this`myPieces, this`otherPieces
      ensures Valid() && Model() == GameRules.InitMap(old(Model()), isRestarting)
    {
      ghost var start := Model();
      var isDarkCell := false;
      var index: nat := 0;
      var row: nat := 0;
      while row < BoardHeight
        invariant row <= BoardHeight && index == row * BoardWidth && isDarkCell == Odd(row)
        invariant Model() == GameRules.InitRows(start, isRestarting, row)
      {
        isDarkCell, index := InitRow(row, index, isDarkCell, isRestarting);
        OddRow(row);
        isDarkCell := !isDarkCell;
        ghost var previous := row;
        row := row + 1;
        OddNext(previous, row);
      }
    }

    /** The inner loop of `InitMap`, over the cells of `row`. */
    method InitRow(row: nat, index: nat, isDarkCell: bool, isRestarting: bool)
      returns (isDarkCell': bool, index': nat)
      requires Valid() && row < BoardHeight && index == row * BoardWidth && isDarkCell == Odd(row)
      modifies tiles, this`myPieces, this`otherPieces
      ensures Valid() && isDarkCell' == Odd(row + BoardWidth) && index' == index + BoardWidth
      ensures Model() == GameRules.InitCols(old(Model()), isRestarting, row, BoardWidth)
    {
      ghost var rowStart := Model();
      isDarkCell' := isDarkCell;
      index' := index;
      var col: nat := 0;
      while col < BoardWidth
        invariant col <= BoardWidth && index' == row * BoardWidth + col
        invariant isDarkCell' == Odd(row + col)
        invariant Valid() && Model() == GameRules.InitCols(rowStart, isRestarting, row, col)
      {
        isDarkCell', index', col := SetUpRowCell(index', row, col, isDarkCell', isRestarting, rowStart);
      }
    }

    /** One turn of the inner loop of `InitMap`: the cell set up, the flag toggled, both counters
        moved on. */
    method SetUpRowCell(index: nat, row: nat, col: nat, isDarkCell: bool, isRestarting: bool, ghost rowStart: GameModel)
      returns (isDarkCell': bool, index': nat, col': nat)
      requires Valid() && row < BoardHeight && col < BoardWidth && index == row * BoardWidth + col
      requires isDarkCell == Odd(row + col)
      requires Sized(rowStart) && Model() == GameRules.InitCols(rowStart, isRestarting, row, col)
      modifies tiles, this`myPieces, this`otherPieces
      ensures col' == col + 1 && index' == row * BoardWidth + col' && isDarkCell' == Odd(row + col')
      ensures Valid() && Model() == GameRules.InitCols(rowStart, isRestarting, row, col')
    {
      SetUpCell(index, row, col, isDarkCell, isRestarting);
      GameRules.InitColsNext(rowStart, isRestarting, row, col);
      isDarkCell' := !isDarkCell;
      index' := index + 1;
      col' := col + 1;
      OddNext(row + col, row + col');
    }

    /** The body of the inner loop of `InitMap`, for the cell at `row`, `col`. */
    method SetUpCell(index: nat, row: nat, col: nat, isDarkCell: bool, isRestarting: bool)
      requires Valid() && row < BoardHeight && col < BoardWidth && index == row * BoardWidth + col
      requires isDarkCell == Odd(row + col)
      modifies tiles, this`myPieces, this`otherPieces
      ensures Valid() && Model() == GameRules.InitCell(old(Model()), isRestarting, row, col)
    {
      OddIsRemainder(row + col);
      assert index / BoardWidth == row && index % BoardWidth == col;
      tiles[index] := tiles[index].SetPosition(col, row);
      if isDarkCell {
        if currentPlayer == Light && isRestarting {
          if row < SpawnTopPieceRow {
            tiles[index] := tiles[index].SetPiece(Some(NewPiece(Dark)));
            otherPieces := otherPieces + {index};
          } else if row > SpawnBottomPieceRow {
            tiles[index] := tiles[index].SetPiece(Some(NewPiece(Light)));
            myPieces := myPieces + {index};
          }
        } else if currentPlayer == Dark {
          if row < SpawnTopPieceRow {
            tiles[index] := tiles[index].SetPiece(Some(NewPiece(Light)));
            otherPieces := otherPieces + {index};
          } else if row > SpawnBottomPieceRow {
            tiles[index] := tiles[index].SetPiece(Some(NewPiece(Dark)));
            myPieces := myPieces + {index};
          }
        }
      } else {
        tiles[index] := tiles[index].SetSide(Light);
      }
    }

    /** `HighLightAllPossibleTiles(beginIndex)`: the `while` loop over the queue of tiles to expand,
        then, when nothing can be captured, the loop that highlights the plain steps. The crown of
        the piece on `beginIndex` opens the backward diagonals. */
    method HighLightAllPossibleTiles(beginIndex: nat)
      requires Valid() && IsIndex(beginIndex) && tiles[beginIndex].piece.Some?
      modifies tiles, this`pieceInDanger
      ensures var r := HighLightAll(old(tiles[..]), old(pieceInDanger), beginIndex, currentPlayer,
                                    old(tiles[beginIndex].piece.value.isKing));
        tiles[..] == r.tiles && pieceInDanger == r.danger
    {
      var king := tiles[beginIndex].piece.value.isKing;
      var moveMap := ExploreQueue(InitialMoveMap, [beginIndex], king);
      ghost var e := Search(tiles[..], pieceInDanger, moveMap, []);
      if pieceInDanger == map[] {
        HighlightMoves(moveMap);
      }
      FinishHighLightAll(old(tiles[..]), old(pieceInDanger), beginIndex, currentPlayer, king, e);
    }

    /** The `while` loop of `HighLightAllPossibleTiles`: expand the front of the queue until the
        queue is empty; the move map comes back with the plain steps found. */
    method ExploreQueue(moveMap: map<Dir, nat>, startPoints: seq<nat>, king: bool) returns (moveMap': map<Dir, nat>)
      requires Valid() && Wf(Search(tiles[..], pieceInDanger, moveMap, startPoints))
      modifies tiles, this`pieceInDanger
      ensures Search(tiles[..], pieceInDanger, moveMap', [])
           == Explore(Search(old(tiles[..]), old(pieceInDanger), moveMap, startPoints), currentPlayer, king)
    {
      moveMap' := moveMap;
      var queue := startPoints;
      ghost var start := Search(tiles[..], pieceInDanger, moveMap, startPoints);
      ghost var s := start;
      ReachesStart(start, currentPlayer, king);
      while queue != []
        invariant s == Search(tiles[..], pieceInDanger, moveMap', queue)
        invariant Wf(s) && Reaches(start, s, currentPlayer, king)
        decreases Remaining(s, currentPlayer)
      {
        moveMap', queue, s := ExploreStep(moveMap', queue, king, start, s);
      }
      ReachesEnd(start, s, currentPlayer, king);
    }

    /** One turn of that loop, on the search state `s` reached from `start`. */
    method ExploreStep(moveMap: map<Dir, nat>, queue: seq<nat>, king: bool, ghost start: Search, ghost s: Search)
      returns (moveMap': map<Dir, nat>, queue': seq<nat>, ghost s': Search)
      requires Valid() && queue != [] && s == Search(tiles[..], pieceInDanger, moveMap, queue)
      requires Wf(start) && Wf(s) && Reaches(start, s, currentPlayer, king)
      modifies tiles, this`pieceInDanger
      ensures s' == Search(tiles[..], pieceInDanger, moveMap', queue')
      ensures Wf(s') && Reaches(start, s', currentPlayer, king)
      ensures Remaining(s', currentPlayer) < Remaining(s, currentPlayer)
    {
      moveMap', queue' := ExpandTile(moveMap, queue[0], queue[1..], king);
      s' := Search(tiles[..], pieceInDanger, moveMap', queue');
      QueueMeasure(s, s', currentPlayer, king);
      ReachesNext(start, s, currentPlayer, king);
    }

    /** One turn of the `while` loop of `HighLightAllPossibleTiles`: the four diagonals of
        `currentIndex`, in the order of the source. */
    method ExpandTile(moveMap: map<Dir, nat>, currentIndex: nat, startPoints: seq<nat>, king: bool)
      returns (moveMap': map<Dir, nat>, startPoints': seq<nat>)
      requires Valid() && IsIndex(currentIndex) && Wf(Search(tiles[..], pieceInDanger, moveMap, startPoints))
      modifies tiles, this`pieceInDanger
      ensures Search(tiles[..], pieceInDanger, moveMap', startPoints')
           == Expand(Search(old(tiles[..]), old(pieceInDanger), moveMap, startPoints), currentIndex, currentPlayer, king)
    {
      ghost var s0 := Search(tiles[..], pieceInDanger, moveMap, startPoints);
      moveMap', startPoints' := ProcessHighLightTile(moveMap, currentIndex, startPoints, LeftFwd, king);
      ghost var s1 := Search(tiles[..], pieceInDanger, moveMap', startPoints');
      moveMap', startPoints' := ProcessHighLightTile(moveMap', currentIndex, startPoints', LeftBack, king);
      ghost var s2 := Search(tiles[..], pieceInDanger, moveMap', startPoints');
      moveMap', startPoints' := ProcessHighLightTile(moveMap', currentIndex, startPoints', RightFwd, king);
      ghost var s3 := Search(tiles[..], pieceInDanger, moveMap', startPoints');
      moveMap', startPoints' := ProcessHighLightTile(moveMap', currentIndex, startPoints', RightBack, king);
      ExpandInSteps(s0, currentIndex, currentPlayer, king, s1, s2, s3, Search(tiles[..], pieceInDanger, moveMap', startPoints'));
    }

    /** The final loop of `HighLightAllPossibleTiles`: highlight the plain step recorded for each
        diagonal, in the order the move map holds them. */
    method HighlightMoves(moveMap: map<Dir, nat>)
      requires Valid() && MoveMapOk(moveMap)
      modifies tiles
      ensures tiles[..] == HighlightSteps(old(tiles[..]), moveMap, MoveMapOrder)
    {
      var k := 0;
      while k < |MoveMapOrder|
        invariant k <= |MoveMapOrder|
        invariant HighlightSteps(tiles[..], moveMap, MoveMapOrder[k..]) == HighlightSteps(old(tiles[..]), moveMap, MoveMapOrder)
      {
        HighlightDir(moveMap, k);
        k := k + 1;
      }
      assert MoveMapOrder[k..] == [];
    }

    /** One turn of the loop of `HighlightMoves`: the tile recorded for the `k`-th direction, if
        any, is highlighted. */
    method HighlightDir(moveMap: map<Dir, nat>, k: nat)
      requires Valid() && MoveMapOk(moveMap) && k < |MoveMapOrder|
      modifies tiles
      ensures HighlightSteps(tiles[..], moveMap, MoveMapOrder[k + 1..]) == HighlightSteps(old(tiles[..]), moveMap, MoveMapOrder[k..])
    {
      ghost var before := tiles[..];
      var dir := MoveMapOrder[k];
      if dir in moveMap && moveMap[dir] != InvalidIndex {
        tiles[moveMap[dir]] := tiles[moveMap[dir]].SetHighLighted();
      }
      HighlightStep(before, tiles[..], moveMap, MoveMapOrder, k);
    }

    /** `IsInDanger(index)`: the loops over the danger map and its lists. */
    method IsInDanger(index: nat) returns (found: bool)
      ensures found <==> InDanger(pieceInDanger, index)
    {
      var keys := pieceInDanger.Keys;
      while keys != {}
        invariant keys <= pieceInDanger.Keys
        invariant forall k | k in pieceInDanger && k !in keys :: index !in pieceInDanger[k]
        decreases keys
      {
        var key :| key in keys;
        var inDangerVec := pieceInDanger[key];
        var i := 0;
        while i < |inDangerVec|
          invariant i <= |inDangerVec| && index !in inDangerVec[..i]
        {
          if inDangerVec[i] == index {
            return true;
          }
          i := i + 1;
        }
        assert inDangerVec[..i] == inDangerVec;
        keys := keys - {key};
      }
      return false;
    }

    /** `ProcessHighLightTile` for the tile `currentIndex` and the diagonal `dir`: record a plain
        step, then take the jump if it is open, handing on the captures of `currentIndex` when it is
        itself a landing tile. The caller's move and jump conditions and target indices are computed
        here from `dir`. */
    method ProcessHighLightTile(moveMap: map<Dir, nat>, currentIndex: nat, startPoints: seq<nat>,
                                dir: Dir, king: bool)
      returns (moveMap': map<Dir, nat>, startPoints': seq<nat>)
      requires Valid() && IsIndex(currentIndex) && Wf(Search(tiles[..], pieceInDanger, moveMap, startPoints))
      modifies tiles, this`pieceInDanger
      ensures Search(tiles[..], pieceInDanger, moveMap', startPoints')
           == ProcessTile(Search(old(tiles[..]), old(pieceInDanger), moveMap, startPoints),
                          currentIndex, dir, currentPlayer, king)
    {
      ghost var s := Search(tiles[..], pieceInDanger, moveMap, startPoints);
      var target := Diagonal(currentIndex, dir, 1);
      var jump := Diagonal(currentIndex, dir, 2);
      moveMap', startPoints' := moveMap, startPoints;
      // Move
      if Allowed(dir, king) && target.Some? && tiles[target.value].piece.None? {
        moveMap' := moveMap'[dir := target.value];
      }
      ghost var s1 := Search(tiles[..], pieceInDanger, moveMap', startPoints');
      // Jump
      if Allowed(dir, king) && target.Some? && jump.Some? && tiles[jump.value].piece.None?
         && HoldsOpponent(tiles[target.value], currentPlayer)
      {
        var inDanger := IsInDanger(target.value);
        if !inDanger {
          startPoints' := JumpOver(currentIndex, target.value, jump.value, moveMap', startPoints');
        }
      }
      ProcessTileCases(s, currentIndex, dir, currentPlayer, king, s1);
    }

    /** The jump of `ProcessHighLightTile` from `currentIndex` over `t` onto `j`: the landing tile
        is highlighted, records the capture and is queued, then inherits the captures of a
        multiple hop. */
    method JumpOver(currentIndex: nat, t: nat, j: nat, ghost moveMap: map<Dir, nat>, startPoints: seq<nat>)
      returns (startPoints': seq<nat>)
      requires Valid() && IsIndex(currentIndex) && IsIndex(j)
      modifies tiles, this`pieceInDanger
      ensures Search(tiles[..], pieceInDanger, moveMap, startPoints')
           == Jump(Search(old(tiles[..]), old(pieceInDanger), moveMap, startPoints), currentIndex, t, j)
    {
      ghost var landed := Land(Search(tiles[..], pieceInDanger, moveMap, startPoints), t, j);
      tiles[j] := tiles[j].SetHighLighted();
      pieceInDanger := pieceInDanger[j := Lookup(pieceInDanger, j) + [t]];
      startPoints' := startPoints + [j];
      assert Search(tiles[..], pieceInDanger, moveMap, startPoints') == landed;
      // Multiple hop
      InheritCaptures(currentIndex, j);
    }

    /** The multiple hop of `ProcessHighLightTile`: when the jump starts from a landing tile, that
        tile is no longer offered, its captures are appended to the list of `jumpIndex`, and its
        key is erased. */
    method InheritCaptures(currentIndex: nat, jumpIndex: nat)
      requires Valid() && IsIndex(currentIndex) && jumpIndex in pieceInDanger
      modifies tiles, this`pieceInDanger
      ensures var r := Inherit(Search(old(tiles[..]), old(pieceInDanger), map[], []), currentIndex, jumpIndex);
        tiles[..] == r.tiles && pieceInDanger == r.danger
    {
      if currentIndex in pieceInDanger {
        tiles[currentIndex] := tiles[currentIndex].Reset();
        var inherited := pieceInDanger[currentIndex];
        var base := pieceInDanger[jumpIndex];
        var i := 0;
        assert base + inherited[..0] == base;
        while i < |inherited|
          modifies this`pieceInDanger
          invariant i <= |inherited|
          invariant pieceInDanger == old(pieceInDanger)[jumpIndex := base + inherited[..i]]
        {
          AppendNext(base, inherited, i);
          pieceInDanger := pieceInDanger[jumpIndex := pieceInDanger[jumpIndex] + [inherited[i]]];
          i := i + 1;
        }
        assert inherited[..i] == inherited;
        pieceInDanger := pieceInDanger - {currentIndex};
      }
    }

    /** `ResetHighlightedTiles`. */
    method ResetHighlightedTiles()
      requires Valid()
      modifies tiles, this`pieceInDanger
      ensures Valid() && Model() == ResetHighlights(old(Model()))
    {
      var i := 0;
      while i < tiles.Length
        modifies tiles
        invariant 0 <= i <= tiles.Length
        invariant forall j | 0 <= j < i :: tiles[j] == old(tiles[j]).Reset()
        invariant forall j | i <= j < tiles.Length :: tiles[j] == old(tiles[j])
      {
        tiles[i] := tiles[i].Reset();
        i := i + 1;
      }
      pieceInDanger := map[];
      assert tiles[..] == ResetHighlights(old(Model())).tiles;
    }

    /** `KillPieceAt(index)`. */
    method KillPieceAt(index: nat)
      requires Valid() && IsIndex(index)
      modifies tiles, this`myPieces, this`otherPieces
      ensures Model() == GameRules.KillPieceAt(old(Model()), index)
    {
      tiles[index] := tiles[index].RemovePiece();
      if index in myPieces {
        myPieces := myPieces - {index};
      } else if index in otherPieces {
        otherPieces := otherPieces - {index};
      }
    }

    /** `MovePiece(fromIndex, destIndex)`. */
    method MovePiece(fromIndex: nat, destIndex: nat)
      requires Valid() && IsIndex(fromIndex) && IsIndex(destIndex)
      modifies tiles, this`myPieces, this`otherPieces
      ensures Model() == GameRules.MovePiece(old(Model()), fromIndex, destIndex)
    {
      tiles[destIndex] := tiles[destIndex].SetPiece(tiles[fromIndex].piece);
      tiles[fromIndex] := tiles[fromIndex].SetPiece(None);
      if fromIndex in myPieces {
        myPieces := myPieces - {fromIndex} + {destIndex};
      } else if fromIndex in otherPieces {
        otherPieces := otherPieces - {fromIndex} + {destIndex};
      }
      if destIndex / BoardWidth == 0 && destIndex in myPieces && tiles[destIndex].piece.Some? {
        tiles[destIndex] := tiles[destIndex].(piece := Some(tiles[destIndex].piece.value.ToKing()));
      }
    }
  }
}
