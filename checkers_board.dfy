/**
 * The board the application talks to (Source/Checkers/CheckersBoard.cpp): it owns the game state and
 * turns mouse and key events into protocol lines through the select, drop and restart state machine.
 * The lines go to the networking side in the order the board hands them over; `HandleInput` returns
 * them instead of calling into the network, which does not touch the board while it takes them.
 */
module Boards {
  import opened Wrappers
  import opened CheckersConstants
  import opened MoveSearch
  import opened GameRules
  import opened GameStates
  import Messages

  /** The SDL events the board reacts to; every other event is `OtherEvent`. */
  datatype Event = KeyDown(key: int) | MouseButtonDown(x: int, y: int) | OtherEvent

  /** SDL reports mouse clicks inside the window. */
  predicate Delivered(e: Event)
  {
    e.MouseButtonDown? ==> InWindow(e.x, e.y)
  }

  /** The board's state: the game, whether it keeps running, whether the next click selects a
      piece, and the tile of the piece being held. */
  datatype BoardModel = BoardModel(game: GameModel, running: bool, selecting: bool, holding: nat)

  /** A piece is held exactly when the board is not selecting, and it is held on a tile. */
  predicate Coherent(b: BoardModel)
  {
    && Sized(b.game)
    && (b.selecting <==> b.holding == InvalidIndex)
    && (!b.selecting ==> IsIndex(b.holding))
  }

  /** `CheckersBoard()`. */
  function NewBoard(): (b: BoardModel)
    ensures Coherent(b) && b.running && b.selecting && b.holding == InvalidIndex
  {
    BoardModel(NewGame(), true, true, InvalidIndex)
  }

  /** `GetPlayer() == kDark`, as printed into MOVE and KILL lines. */
  function HostFlag(player: CheckersColor): nat
  {
    if player == Dark then 1 else 0
  }

  /** The MOVE line of a drop, then one KILL line per captured tile, in capture order. */
  function DropMessages(from: nat, result: MoveResult, flag: nat): seq<Messages.Message>
  {
    [Messages.Move(from, result.destIndex, flag)] + DropKills(result.piecesToKill, flag)
  }

  function DropKills(kills: seq<nat>, flag: nat): seq<Messages.Message>
  {
    seq(|kills|, i requires 0 <= i < |kills| => Messages.Kill(kills[i], flag))
  }

  /** What `HandleInput` leaves behind: the board, the messages handed to the network, and the
      value returned. */
  datatype Handled = Handled(board: BoardModel, sent: seq<Messages.Message>, result: bool)

  /** `HandleInput(event)` on the abstract board. */
  function HandleEvent(b: BoardModel, e: Event): (r: Handled)
    requires Coherent(b) && Delivered(e)
    ensures Coherent(r.board)
    ensures r.board.running == b.running && r.result == b.running
    ensures forall i | 0 <= i < |r.sent| :: Messages.WellFormed(r.sent[i])
    // a key changes nothing and sends RESTART when it is the restart key pressed on the host
    ensures e.KeyDown? ==> r.board == b && r.sent == (if e.key == RestartKey && b.game.player == Dark then [Messages.Restart] else [])
    // a click while selecting sends nothing and holds the clicked piece if it is one of ours
    ensures e.MouseButtonDown? && b.selecting ==>
      && r.sent == []
      && (r.board.selecting <==> !Selectable(b.game, GetIndexFromPixel(e.x, e.y)))
      && (!r.board.selecting ==> r.board.holding == GetIndexFromPixel(e.x, e.y))
    // a click while holding is a drop: a MOVE from the held tile and a KILL per capture if the tile
    // is on offer, nothing otherwise; either way the board is back to selecting with nothing offered
    ensures e.MouseButtonDown? && !b.selecting ==>
      var dest := GetIndexFromPixel(e.x, e.y);
      var kills := Lookup(b.game.danger, dest);
      var flag := HostFlag(b.game.player);
      && r.board.selecting && r.board.holding == InvalidIndex && Idle(r.board.game)
      && (r.sent != [] <==> b.game.tiles[dest].highLighted)
      && (r.sent != [] ==>
            && |r.sent| == 1 + |kills|
            && r.sent[0] == Messages.Move(b.holding, dest, flag)
            && forall i | 0 <= i < |kills| :: r.sent[i + 1] == Messages.Kill(kills[i], flag))
    ensures e.OtherEvent? ==> r.board == b && r.sent == []
  {
    match e
    case KeyDown(key) =>
      var sent := if key == RestartKey && b.game.player == Dark then [Messages.Restart] else [];
      Handled(b, sent, b.running)
    case MouseButtonDown(x, y) =>
      if b.selecting then Select(b, x, y) else Drop(b, x, y)
    case OtherEvent =>
      Handled(b, [], b.running)
  }

  /** A click while selecting: the clicked piece is held if it is one of ours. */
  function Select(b: BoardModel, x: int, y: int): (r: Handled)
    requires Coherent(b) && b.selecting && InWindow(x, y)
    ensures Coherent(r.board) && r.board.running == b.running && r.result == b.running && r.sent == []
    ensures r.board.selecting <==> !Selectable(b.game, GetIndexFromPixel(x, y))
    ensures !r.board.selecting ==> r.board.holding == GetIndexFromPixel(x, y)
  {
    var sel := OnSelected(b.game, x, y);
    Handled(b.(game := sel.game, holding := sel.index, selecting := sel.index == InvalidIndex), [], b.running)
  }

  /** A click while holding: the drop, legal exactly when the clicked tile is on offer. */
  function Drop(b: BoardModel, x: int, y: int): (r: Handled)
    requires Coherent(b) && !b.selecting && InWindow(x, y)
    ensures Coherent(r.board) && r.board.running == b.running && r.result == b.running
    ensures forall i | 0 <= i < |r.sent| :: Messages.WellFormed(r.sent[i])
    ensures var dest := GetIndexFromPixel(x, y);
      var kills := Lookup(b.game.danger, dest);
      var flag := HostFlag(b.game.player);
      && r.board.selecting && r.board.holding == InvalidIndex && Idle(r.board.game)
      && (r.sent != [] <==> b.game.tiles[dest].highLighted)
      && (r.sent != [] ==>
            && |r.sent| == 1 + |kills|
            && r.sent[0] == Messages.Move(b.holding, dest, flag)
            && forall i | 0 <= i < |kills| :: r.sent[i + 1] == Messages.Kill(kills[i], flag))
  {
    var result := IsValidMove(b.game, x, y);
    var legal := result.destIndex != InvalidIndex;
    var sent := if legal then DropMessages(b.holding, result, HostFlag(b.game.player)) else [];
    var game := if legal then b.game else ResetSelectedPiece(b.game, b.holding);
    Handled(BoardModel(ResetHighlights(game), b.running, true, InvalidIndex), sent, b.running)
  }

  /** `ShouldContinue` on the abstract board: the board's running flag, cleared for good once somebody has won. */
  function Continuing(b: BoardModel): (r: (BoardModel, bool))
    ensures r.1 == r.0.running && r.0 == b.(running := r.1)
    ensures r.1 <==> b.running && Winner(b.game) == Continue
  {
    if Winner(b.game) == Continue then (b, b.running) else (b.(running := false), false)
  }

  /** The lines `HandleInput` hands to the network, as sprintf writes them. */
  function Written(sent: seq<Messages.Message>): (lines: seq<string>)
    ensures |lines| == |sent| && forall i | 0 <= i < |sent| :: OneLine(lines[i])
  {
    seq(|sent|, i requires 0 <= i < |sent| => Messages.Encode(sent[i]))
  }

  /** `CheckersBoard`: the game state and the select/drop state machine over it. */
  class CheckersBoard {
    const currentState: GameState
    var running: bool
    var isSelecting: bool
    var holdingPieceIndex: nat

    ghost predicate Valid()
      reads this, currentState, currentState.tiles
    {
      currentState.Valid() && Coherent(Model())
    }

    /** The abstract value of the board. */
    function Model(): BoardModel
      reads this, currentState, currentState.tiles
    {
      BoardModel(currentState.Model(), running, isSelecting, holdingPieceIndex)
    }

    /** `CheckersBoard()`. */
    constructor ()
      ensures Valid() && fresh(currentState) && fresh(currentState.tiles) && Model() == NewBoard()
    {
      currentState := new GameState();
      running := true;
      isSelecting := true;
      holdingPieceIndex := InvalidIndex;
    }

    /** `Init(renderer, isClient)`. */
    method Init(isClient: bool)
      requires Valid()
      modifies currentState, currentState.tiles
      ensures Valid() && Model() == old(Model()).(game := GameRules.Init(old(Model()).game, isClient))
    {
      currentState.Init(isClient);
    }

    /** `Shutdown`. */
    method Shutdown()
      modifies this`running
      ensures Model() == old(Model()).(running := false)
    {
      running := false;
    }

    /** `Remove(index)`: a KILL line applied to the board. */
    method Remove(index: nat)
      requires Valid() && IsIndex(index)
      modifies currentState.tiles, currentState`myPieces, currentState`otherPieces
      ensures Valid() && Model() == old(Model()).(game := GameRules.KillPieceAt(old(Model()).game, index))
    {
      currentState.KillPieceAt(index);
    }

    /** `Move(fromIndex, destIndex)`: a MOVE line applied to the board. */
    method Move(fromIndex: nat, destIndex: nat)
      requires Valid() && IsIndex(fromIndex) && IsIndex(destIndex)
      modifies currentState.tiles, currentState`myPieces, currentState`otherPieces
      ensures Valid() && Model() == old(Model()).(game := GameRules.MovePiece(old(Model()).game, fromIndex, destIndex))
    {
      currentState.MovePiece(fromIndex, destIndex);
    }

    /** `Restart(renderer)`. */
    method Restart()
      requires Valid()
      modifies currentState, currentState.tiles
      ensures Valid() && Model() == old(Model()).(game := GameRules.Restart(old(Model()).game))
    {
      currentState.Restart();
    }

    /** `PlacePiece(side, index, renderer)`, on the client only. */
    method PlacePiece(side: CheckersColor, index: nat)
      requires Valid() && IsIndex(index) && currentState.currentPlayer == Light
      modifies currentState, currentState.tiles
      ensures Valid() && Model() == old(Model()).(game := GameRules.PlacePiece(old(Model()).game, side, index))
    {
      currentState.PlacePiece(side, index);
    }

    /** `GetAllPiecesIndex`, on the host only. */
    method GetAllPiecesIndex() returns (dark: seq<nat>, light: seq<nat>)
      requires currentState.currentPlayer == Dark
      ensures Members(dark) == currentState.myPieces && NoDup(dark) && |dark| == |currentState.myPieces|
      ensures Members(light) == currentState.otherPieces && NoDup(light) && |light| == |currentState.otherPieces|
    {
      dark, light := currentState.GetAllPiecesIndex();
    }

    /** `ShouldContinue`. */
    method ShouldContinue() returns (r: bool)
      requires Valid()
      modifies this`running
      ensures Valid() && (Model(), r) == Continuing(old(Model()))
    {
      var winner := currentState.CheckerWinner();
      if winner == Continue {
        return running;
      }
      running := false;
      return running;
    }

    /** `HandleInput(event, network)`: the lines handed to the network, in order, and the running flag. */
    method HandleInput(e: Event) returns (sent: seq<string>, r: bool)
      requires Valid() && Delivered(e)
      modifies this, currentState, currentState.tiles
      ensures Valid()
      ensures var h := HandleEvent(old(Model()), e);
        Model() == h.board && sent == Written(h.sent) && r == h.result
    {
      sent := [];
      match e {
        case KeyDown(key) =>
        if key == RestartKey && currentState.currentPlayer == Dark {
          sent := [Messages.Encode(Messages.Restart)];
        }
        case MouseButtonDown(x, y) =>
        if isSelecting {
          SelectAt(x, y);
        } else {
          sent := DropAt(x, y);
        }
        case OtherEvent =>
      }
      r := running;
    }

    /** The selecting branch of `HandleInput`. */
    method SelectAt(x: int, y: int)
      requires Valid() && isSelecting && InWindow(x, y)
      modifies this, currentState, currentState.tiles
      ensures Valid() && Model() == Select(old(Model()), x, y).board
    {
      holdingPieceIndex := currentState.OnSelected(x, y);
      if holdingPieceIndex != InvalidIndex {
        isSelecting := false;
      }
    }

    /** The holding branch of `HandleInput`: the drop, and the lines it sends. */
    method DropAt(x: int, y: int) returns (sent: seq<string>)
      requires Valid() && !isSelecting && InWindow(x, y)
      modifies this, currentState, currentState.tiles
      ensures Valid() && Model() == Drop(old(Model()), x, y).board && sent == Written(Drop(old(Model()), x, y).sent)
    {
      sent := [];
      var moveResult := currentState.IsValidMove(x, y);
      if moveResult.destIndex != InvalidIndex {
        sent := SendDrop(holdingPieceIndex, moveResult, HostFlag(currentState.currentPlayer));
      } else {
        currentState.ResetSelectedPiece(holdingPieceIndex);
      }
      holdingPieceIndex := InvalidIndex;
      isSelecting := true;
      currentState.ResetHighlightedTiles();
    }
  }

  /** The MOVE line of a drop, then a KILL line for each captured tile in turn. */
  method SendDrop(from: nat, result: MoveResult, flag: nat) returns (sent: seq<string>)
    ensures sent == Written(DropMessages(from, result, flag))
  {
    var kills := result.piecesToKill;
    sent := [Messages.Encode(Messages.Move(from, result.destIndex, flag))];
    var i := 0;
    while i < |kills|
      invariant i <= |kills| && |sent| == i + 1
      invariant sent[0] == Messages.Encode(Messages.Move(from, result.destIndex, flag))
      invariant forall j | 0 <= j < i :: sent[j + 1] == Messages.Encode(Messages.Kill(kills[j], flag))
    {
      sent := sent + [Messages.Encode(Messages.Kill(kills[i], flag))];
      i := i + 1;
    }
    ghost var messages := DropMessages(from, result, flag);
    assert |messages| == |sent|;
    forall j | 0 <= j < |sent| ensures sent[j] == Written(messages)[j] {
      if j > 0 {
        assert messages[j] == Messages.Kill(kills[j - 1], flag);
      }
    }
  }

  // ----- Properties of the state machine -----

  /** The tiles named by the KILL lines that follow a MOVE line. */
  function Captures(sent: seq<Messages.Message>): seq<nat>
    requires forall i | 1 <= i < |sent| :: sent[i].Kill?
  {
    if |sent| <= 1 then [] else seq(|sent| - 1, i requires 0 <= i < |sent| - 1 => sent[i + 1].index)
  }

  /** Selecting one of our pieces on an idle, consistent board and dropping it on an offered tile
      sends lines that, applied in order, move the piece onto an empty tile and remove as many
      opponent pieces as there are KILL lines, leaving the board consistent. */
  lemma SelectThenDrop(b: BoardModel, selectX: int, selectY: int, dropX: int, dropY: int)
    requires Coherent(b) && b.selecting && Idle(b.game) && Consistent(b.game)
    requires InWindow(selectX, selectY) && InWindow(dropX, dropY)
    requires Selectable(b.game, GetIndexFromPixel(selectX, selectY))
    ensures var held := HandleEvent(b, MouseButtonDown(selectX, selectY)).board;
      var dropped := HandleEvent(held, MouseButtonDown(dropX, dropY));
      var from := GetIndexFromPixel(selectX, selectY);
      dropped.sent != [] ==>
        && (forall i | 1 <= i < |dropped.sent| :: dropped.sent[i].Kill?)
        && var dest := dropped.sent[0].destIndex;
           var kills := Captures(dropped.sent);
           && dropped.sent[0] == Messages.Move(from, dest, HostFlag(b.game.player))
           && IsIndex(dest) && dest != from && b.game.tiles[dest].piece.None?
           && NoDup(kills) && (forall i | 0 <= i < |kills| :: kills[i] in b.game.other)
           && var after := KillAll(MovePiece(dropped.board.game, from, dest), kills);
              Consistent(after) && |after.other| == |b.game.other| - |kills|
  {
    var sel := OnSelected(b.game, selectX, selectY);
    var held := BoardModel(sel.game, b.running, false, sel.index);
    assert HandleEvent(b, MouseButtonDown(selectX, selectY)).board == held;
    DropOutcome(held, dropX, dropY);
    var mv := IsValidMove(sel.game, dropX, dropY);
    if mv.destIndex != InvalidIndex {
      DropCaptures(sel.index, mv, HostFlag(b.game.player));
      LegalDrop(b.game, selectX, selectY, dropX, dropY);
    }
  }

  /** A drop from a held piece: the lines are those of the move `IsValidMove` finds, if any, and
      the game is the one selection left, with the offers cleared. */
  lemma DropOutcome(held: BoardModel, x: int, y: int)
    requires Coherent(held) && !held.selecting && InWindow(x, y)
    ensures var mv := IsValidMove(held.game, x, y);
      var d := HandleEvent(held, MouseButtonDown(x, y));
      && (d.sent != [] <==> mv.destIndex != InvalidIndex)
      && (d.sent != [] ==> d.sent == DropMessages(held.holding, mv, HostFlag(held.game.player)) && d.board.game == ResetHighlights(held.game))
  {
  }

  /** The KILL lines of a drop name the captured tiles, in order. */
  lemma DropCaptures(from: nat, mv: MoveResult, flag: nat)
    ensures var sent := DropMessages(from, mv, flag);
      && (forall i | 1 <= i < |sent| :: sent[i].Kill?)
      && Captures(sent) == mv.piecesToKill
  {
    var sent := DropMessages(from, mv, flag);
    assert forall i | 1 <= i < |sent| :: sent[i] == Messages.Kill(mv.piecesToKill[i - 1], flag);
  }

  /** Selecting one of our pieces on an idle board and dropping it on a tile not on offer sends
      nothing and leaves the board exactly as it was. */
  lemma SelectThenCancel(b: BoardModel, selectX: int, selectY: int, dropX: int, dropY: int)
    requires Coherent(b) && b.selecting && Idle(b.game)
    requires InWindow(selectX, selectY) && InWindow(dropX, dropY)
    requires Selectable(b.game, GetIndexFromPixel(selectX, selectY))
    ensures var held := HandleEvent(b, MouseButtonDown(selectX, selectY)).board;
      var dropped := HandleEvent(held, MouseButtonDown(dropX, dropY));
      dropped.sent == [] ==> dropped.board == b
  {
    var held := HandleEvent(b, MouseButtonDown(selectX, selectY)).board;
    var sel := OnSelected(b.game, selectX, selectY);
    assert held.game == sel.game && held.holding == sel.index;
    CancelRestores(b.game, selectX, selectY);
  }

  /** Once the board has stopped, no event and no winner check starts it again. */
  lemma {:induction false} StaysStopped(b: BoardModel, events: seq<Event>)
    requires Coherent(b) && !b.running && forall i | 0 <= i < |events| :: Delivered(events[i])
    ensures var r := Replay(b, events); !r.running && !Continuing(r).1
    decreases |events|
  {
    if events != [] {
      var h := HandleEvent(b, events[0]).board;
      StaysStopped(Continuing(h).0, events[1..]);
    }
  }

  /** The application's loop as the board sees it: each event is handled, then the winner checked. */
  function Replay(b: BoardModel, events: seq<Event>): (r: BoardModel)
    requires Coherent(b) && forall i | 0 <= i < |events| :: Delivered(events[i])
    ensures Coherent(r)
    decreases |events|
  {
    if events == [] then b
    else Replay(Continuing(HandleEvent(b, events[0]).board).0, events[1..])
  }
}
