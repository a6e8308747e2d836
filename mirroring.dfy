/**
 * The promise the protocol between Source/Application/Networking/NetworkServer.cpp and
 * NetworkClient.cpp keeps: the host (dark) and the guest (light) each see the board from their own
 * side, so tile `i` of one is tile `63 - i` of the other, and the two boards stay mirror images of
 * each other as pieces are placed, moved and taken.
 */
module Mirroring {
  import opened Wrappers
  import opened CheckersConstants
  import opened Tiles
  import opened GameRules
  import opened GameStates
  import opened Messages
  import opened Dispatch
  import opened NetworkServers

  /** Which colour stands on a tile, if any. */
  function Occupant(t: Tile): Option<CheckersColor>
  {
    if t.piece.Some? then Some(t.piece.value.color) else None
  }

  /** Every tile of the host's board holds what the opposite tile of the guest's board holds. */
  predicate Mirrored(host: GameModel, guest: GameModel)
  {
    Sized(host) && Sized(guest)
    && forall i | 0 <= i < BoardSize :: Occupant(host.tiles[i]) == Occupant(guest.tiles[BoardSize - 1 - i])
  }

  predicate AllWellFormed(queue: seq<Message>)
  {
    forall k | 0 <= k < |queue| :: WellFormed(queue[k])
  }

  // ----- Moves and captures -----

  /** What a move leaves on its two tiles: `from` empty and, if it is another tile, `dest` holding
      the colour that stood on `from`. */
  lemma MoveOccupants(m: GameModel, from: nat, dest: nat)
    requires Sized(m) && IsIndex(from) && IsIndex(dest)
    ensures var r := MovePiece(m, from, dest);
      && Occupant(r.tiles[from]) == None
      && (from != dest ==> Occupant(r.tiles[dest]) == Occupant(m.tiles[from]))
  {
  }

  /** A move on one board and the opposite move on the other keep them mirror images. */
  lemma MoveMirrored(host: GameModel, guest: GameModel, from: nat, dest: nat)
    requires Mirrored(host, guest) && IsIndex(from) && IsIndex(dest)
    ensures Mirrored(MovePiece(host, from, dest), MovePiece(guest, BoardSize - 1 - from, BoardSize - 1 - dest))
  {
    var h := MovePiece(host, from, dest);
    var g := MovePiece(guest, BoardSize - 1 - from, BoardSize - 1 - dest);
    MoveOccupants(host, from, dest);
    MoveOccupants(guest, BoardSize - 1 - from, BoardSize - 1 - dest);
    forall i | 0 <= i < BoardSize ensures Occupant(h.tiles[i]) == Occupant(g.tiles[BoardSize - 1 - i]) {
      if i != from && i != dest {
        assert h.tiles[i] == host.tiles[i];
        assert g.tiles[BoardSize - 1 - i] == guest.tiles[BoardSize - 1 - i];
      }
    }
  }

  /** A capture on one board and the opposite capture on the other keep them mirror images. */
  lemma KillMirrored(host: GameModel, guest: GameModel, index: nat)
    requires Mirrored(host, guest) && IsIndex(index)
    ensures Mirrored(KillPieceAt(host, index), KillPieceAt(guest, BoardSize - 1 - index))
  {
    var h := KillPieceAt(host, index);
    var g := KillPieceAt(guest, BoardSize - 1 - index);
    forall i | 0 <= i < BoardSize ensures Occupant(h.tiles[i]) == Occupant(g.tiles[BoardSize - 1 - i]) {
      if i != index {
        assert h.tiles[i] == host.tiles[i];
      }
    }
  }

  /** The indices a KILL or MOVE names are all on the board, as a board's own drop makes them. */
  predicate OnBoard(m: Message)
  {
    match m
    case Kill(index, _) => IsIndex(index)
    case Move(from, dest, _) => IsIndex(from) && IsIndex(dest)
    case _ => false
  }

  /** Whoever made a KILL or MOVE, the host applying it as `HostLocal` says and the guest applying
      what the host forwards keep the two boards mirror images. */
  lemma ForwardKeepsMirrored(host: GameModel, guest: GameModel, m: Message)
    requires Mirrored(host, guest) && OnBoard(m) && guest.player == Light
    ensures Mirrored(Apply(host, HostLocal(m)), Apply(guest, HostForward(m)))
  {
    match m
    case Kill(index, flag) => KillForwarded(host, guest, index, flag);
    case Move(from, dest, flag) => MoveForwarded(host, guest, from, dest, flag);
  }

  lemma KillForwarded(host: GameModel, guest: GameModel, index: nat, flag: nat)
    requires Mirrored(host, guest) && IsIndex(index)
    ensures var m := Kill(index, flag); Mirrored(Apply(host, HostLocal(m)), Apply(guest, HostForward(m)))
  {
    var back := BoardSize - 1 - index;
    assert Mirror(index) == back;
    if flag != 0 {
      KillMirrored(host, guest, index);
    } else {
      KillMirrored(host, guest, back);
    }
  }

  lemma MoveForwarded(host: GameModel, guest: GameModel, from: nat, dest: nat, flag: nat)
    requires Mirrored(host, guest) && IsIndex(from) && IsIndex(dest)
    ensures var m := Move(from, dest, flag); Mirrored(Apply(host, HostLocal(m)), Apply(guest, HostForward(m)))
  {
    var backFrom, backDest := BoardSize - 1 - from, BoardSize - 1 - dest;
    assert Mirror(from) == backFrom && Mirror(dest) == backDest;
    if flag != 0 {
      MoveMirrored(host, guest, from, dest);
    } else {
      MoveMirrored(host, guest, backFrom, backDest);
    }
  }

  // ----- The greeting -----

  /** The guest's board after the PIECE lines of one side, in order. */
  function PlaceAll(g: GameModel, side: nat, indices: seq<nat>): (r: GameModel)
    requires Sized(g) && g.player == Light && side < 4
    ensures Sized(r) && r.player == Light
    decreases |indices|
  {
    if indices == [] then g
    else PlaceAll(Apply(g, Piece(side, Mirror(indices[0]))), side, indices[1..])
  }

  /** The guest's loop takes the PIECE lines of one side one by one, placing each piece. */
  lemma {:induction false} ServePieces(s: GuestState, side: nat, indices: seq<nat>, rest: seq<Message>)
    requires s.running && Sized(s.game) && s.game.player == Light && IsFlag(side)
    requires AllWellFormed(rest)
    ensures AllWellFormed(PieceLines(side, indices) + rest)
    ensures GuestServe(s, PieceLines(side, indices) + rest)
      == GuestServe(s.(game := PlaceAll(s.game, side, indices)), rest)
    decreases |indices|
  {
    var q := PieceLines(side, indices) + rest;
    assert AllWellFormed(q) by {
      forall k | 0 <= k < |q| ensures WellFormed(q[k]) {
        if k >= |indices| {
          assert q[k] == rest[k - |indices|];
        }
      }
    }
    if indices == [] {
      assert q == rest;
    } else {
      var first := Piece(side, Mirror(indices[0]));
      assert q[0] == first;
      assert q[1..] == PieceLines(side, indices[1..]) + rest;
      var s1 := s.(game := Apply(s.game, first));
      assert GuestStep(s, first) == s1;
      ServePieces(s1, side, indices[1..], rest);
    }
  }

  /** Which colour stands on each tile after the PIECE lines of one side: the side's colour on
      every mirrored index, and what stood there before elsewhere. */
  lemma {:induction false} PlaceAllEffect(g: GameModel, side: nat, indices: seq<nat>)
    requires Sized(g) && g.player == Light && side < 4
    requires forall k | 0 <= k < |indices| :: IsIndex(indices[k])
    ensures forall i | 0 <= i < BoardSize ::
      Occupant(PlaceAll(g, side, indices).tiles[i])
        == if BoardSize - 1 - i in Members(indices) then Some(ColorOf(side)) else Occupant(g.tiles[i])
    decreases |indices|
  {
    if indices != [] {
      var at := BoardSize - 1 - indices[0];
      var g1 := Apply(g, Piece(side, Mirror(indices[0])));
      assert g1 == PlacePiece(g, ColorOf(side), at);
      PlaceAllEffect(g1, side, indices[1..]);
      assert Members(indices) == {indices[0]} + Members(indices[1..]) by {
        assert forall x | x in indices[1..] :: x in indices;
        assert forall k | 0 < k < |indices| :: indices[k] == indices[1..][k - 1];
      }
    } else {
      assert Members(indices) == {};
    }
  }

  /** A guest whose board holds no piece, served the greeting of a set-up host, ends with a board
      that mirrors the host's, holding the turn exactly when the host does not, still running, and
      with nothing left queued. */
  lemma GreetingMirrors(host: GameModel, s: GuestState, dark: seq<nat>, light: seq<nat>, active: bool)
    requires Consistent(host) && host.player == Dark
    requires Members(dark) == host.my && Members(light) == host.other
    requires s.running && Sized(s.game) && s.game.player == Light && NoPieces(s.game.tiles)
    ensures AllWellFormed(Greeting(dark, light, active))
    ensures var r := GuestServe(s, Greeting(dark, light, active));
      && r.1 == [] && Mirrored(host, r.0.game)
      && r.0.active == !active && r.0.running
  {
    GreetingServed(s, dark, light, active);
    GreetingBoard(host, s.game, dark, light);
  }

  /** The guest's loop takes the whole greeting: both sides' pieces, then the turn. */
  lemma GreetingServed(s: GuestState, dark: seq<nat>, light: seq<nat>, active: bool)
    requires s.running && Sized(s.game) && s.game.player == Light
    ensures AllWellFormed(Greeting(dark, light, active))
    ensures GuestServe(s, Greeting(dark, light, active))
      == (s.(game := PlaceAll(PlaceAll(s.game, 0, dark), 1, light), active := !active, logTurn := true), [])
  {
    var turn := Turn(if active then 0 else 1);
    var tail := PieceLines(1, light) + [turn];
    assert Greeting(dark, light, active) == PieceLines(0, dark) + tail;
    var s1 := s.(game := PlaceAll(s.game, 0, dark));
    var s2 := s1.(game := PlaceAll(s1.game, 1, light));
    TurnServed(s2, turn);
    ServePieces(s1, 1, light, [turn]);
    ServePieces(s, 0, dark, tail);
  }

  /** The TURN line: the guest holds the turn exactly when the side it names is not 0. */
  lemma TurnServed(s: GuestState, turn: Message)
    requires s.running && Sized(s.game) && s.game.player == Light && turn.Turn? && IsFlag(turn.side)
    ensures AllWellFormed([turn])
    ensures GuestServe(s, [turn]) == (s.(active := turn.side != 0, logTurn := true), [])
  {
    assert [turn][1..] == [];
  }

  /** The PIECE lines of a set-up host's two sides, placed on a guest board with no piece, give the
      mirror image of the host's board. */
  lemma GreetingBoard(host: GameModel, g: GameModel, dark: seq<nat>, light: seq<nat>)
    requires Consistent(host) && host.player == Dark
    requires Members(dark) == host.my && Members(light) == host.other
    requires Sized(g) && g.player == Light && NoPieces(g.tiles)
    ensures Mirrored(host, PlaceAll(PlaceAll(g, 0, dark), 1, light))
  {
    assert forall k | 0 <= k < |dark| :: dark[k] in Members(dark);
    assert forall k | 0 <= k < |light| :: light[k] in Members(light);
    var g1 := PlaceAll(g, 0, dark);
    var g2 := PlaceAll(g1, 1, light);
    PlaceAllEffect(g, 0, dark);
    PlaceAllEffect(g1, 1, light);
    forall i | 0 <= i < BoardSize ensures Occupant(host.tiles[i]) == Occupant(g2.tiles[BoardSize - 1 - i]) {
      assert g.tiles[BoardSize - 1 - i].piece.None?;
      assert BoardSize - 1 - (BoardSize - 1 - i) == i;
    }
  }
}
