/**
 * What the two ends do with a queued message, as pure functions: the body of the `GameUpdate` loop in
 * Source/Application/Networking/NetworkServer.cpp (the host, which applies a message to its own board
 * and forwards it to the guest with the indices mirrored as needed) and in NetworkClient.cpp (the
 * guest, which applies everything as it comes). The server and client classes are proved against
 * these functions.
 */
module Dispatch {
  import opened CheckersConstants
  import opened GameRules
  import opened Messages

  /** `(int)n` for a `size_t`: the low 32 bits, read as a two's complement value. */
  function IntCast(n: nat): (r: int)
    ensures -0x8000_0000 <= r < 0x8000_0000
    ensures n < 0x8000_0000 ==> r == n
  {
    var low := n % 0x1_0000_0000;
    if low < 0x8000_0000 then low else low - 0x1_0000_0000
  }

  /** `RevertedIndex((int)n)`: a wire index seen from the other side of the board. */
  function Mirror(n: nat): (r: nat)
    ensures IsIndex(n) ==> IsIndex(r) && r == BoardSize - 1 - n
  {
    RevertedIndex(IntCast(n))
  }

  /** A message applied to a board: a KILL empties a tile, a MOVE moves a piece, a PIECE places
      one, a RESTART restarts; the others do not touch the board. An index off the board leaves it
      as it is. */
  function Apply(g: GameModel, m: Message): (r: GameModel)
    requires Sized(g) && (m.Piece? ==> g.player == Light && m.side < 4)
    ensures Sized(r) && r.player == g.player
  {
    match m
    case Kill(index, _) => if IsIndex(index) then KillPieceAt(g, index) else g
    case Move(from, dest, _) => if IsIndex(from) && IsIndex(dest) then MovePiece(g, from, dest) else g
    case Piece(side, dest) => if IsIndex(dest) then PlacePiece(g, ColorOf(side), dest) else g
    case Restart => RestartKeepsPlayer(g); GameRules.Restart(g)
    case _ => g
  }

  lemma RestartKeepsPlayer(g: GameModel)
    requires Sized(g)
    ensures Sized(GameRules.Restart(g)) && GameRules.Restart(g).player == g.player
  {
    InitRowsEffect(g.(tiles := ClearPieces(g.tiles)), true, BoardHeight);
  }

  // ----- The host -----

  /** The message as the host applies it: its own (flag 1) as it is, the guest's mirrored. */
  function HostLocal(m: Message): Message
  {
    match m
    case Kill(index, flag) => if flag != 0 then m else Kill(Mirror(index), flag)
    case Move(from, dest, flag) => if flag != 0 then m else Move(Mirror(from), Mirror(dest), flag)
    case _ => m
  }

  /** The message as the host forwards it to the guest: its own mirrored, the guest's as it is. */
  function HostForward(m: Message): Message
  {
    match m
    case Kill(index, flag) => if flag != 0 then Kill(Mirror(index), flag) else m
    case Move(from, dest, flag) => if flag != 0 then Move(Mirror(from), Mirror(dest), flag) else m
    case _ => m
  }

  /** The host's state as far as its `GameUpdate` loop changes it. */
  datatype HostState = HostState(game: GameModel, active: bool, logTurn: bool)

  /** One pass of the host's loop: apply the message, and the bytes it sends to every guest. */
  function HostStep(s: HostState, m: Message): (r: (HostState, string))
    requires Sized(s.game)
    ensures Sized(r.0.game) && r.0.game.player == s.game.player
  {
    match m
    case Kill(_, _) => (s.(game := Apply(s.game, HostLocal(m))), Encode(HostForward(m)))
    case Move(_, _, _) => (s.(game := Apply(s.game, HostLocal(m))), Encode(HostForward(m)))
    case Active => (s.(active := true, logTurn := true), [])
    case Restart => (s.(game := Apply(s.game, m)), Encode(Messages.Restart))
    case _ => (s, [])
  }

  /** The host's loop over its whole queue: the final state and all the bytes sent, in order. */
  function HostServe(s: HostState, queue: seq<Message>): (r: (HostState, string))
    requires Sized(s.game)
    ensures Sized(r.0.game) && r.0.game.player == s.game.player
    decreases |queue|
  {
    if queue == [] then (s, [])
    else
      var step := HostStep(s, queue[0]);
      var later := HostServe(step.0, queue[1..]);
      (later.0, step.1 + later.1)
  }

  // ----- The guest -----

  /** The guest's state as far as its `GameUpdate` loop changes it; `running` is the application's
      flag, which GAME IS FULL clears. */
  datatype GuestState = GuestState(game: GameModel, active: bool, logTurn: bool, running: bool)

  /** Whether a guest board can take a message: PIECE needs the guest's colour and a side it can
      name. */
  predicate GuestCanApply(s: GuestState, m: Message)
  {
    Sized(s.game) && s.game.player == Light && (m.Piece? ==> m.side < 4)
  }

  /** One pass of the guest's loop: everything is applied as it comes. */
  function GuestStep(s: GuestState, m: Message): (r: GuestState)
    requires GuestCanApply(s, m)
    ensures Sized(r.game) && r.game.player == Light
  {
    var game := Apply(s.game, m);
    match m
    case GameFull => s.(running := false)
    case Active => s.(active := true, logTurn := true)
    case Turn(side) => s.(active := side != 0, logTurn := true)
    case _ => s.(game := game)
  }

  /** The guest's loop: messages are taken while the application runs; what it leaves queued. */
  function GuestServe(s: GuestState, queue: seq<Message>): (r: (GuestState, seq<Message>))
    requires Sized(s.game) && s.game.player == Light
    requires forall i | 0 <= i < |queue| :: WellFormed(queue[i])
    ensures Sized(r.0.game) && r.0.game.player == Light
    decreases |queue|
  {
    if !s.running || queue == [] then (s, queue)
    else
      assert WellFormed(queue[0]);
      GuestServe(GuestStep(s, queue[0]), queue[1..])
  }
}
