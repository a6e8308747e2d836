/**
 * The host's networking (Source/Application/Networking/NetworkServer.cpp): the table of guest
 * connections with their incoming and outgoing byte buffers, the decoding of lines into the message
 * queue, the loop that applies queued messages to the board and forwards them, and the greeting a
 * new guest receives. Sockets are left out: a read is the chunk `recv` delivered (empty when the
 * guest is gone), a send is the count `send` reported.
 */
module NetworkServers {
  import opened Wrappers
  import opened CheckersConstants
  import opened GameRules
  import opened GameStates
  import opened Messages
  import opened Framing
  import opened Networking
  import opened MoveSearch
  import opened Dispatch
  import opened Boards

  /** A guest connection: the bytes received and not yet taken as a line, and the bytes queued and
      not yet sent. */
  datatype Connection = Connection(incomingBuffer: string, outgoingBuffer: string)

  /** `SendToAll(message)`: the same bytes queued on every connection. */
  function Broadcast(connections: seq<Connection>, message: string): (r: seq<Connection>)
    ensures |r| == |connections|
    ensures forall i | 0 <= i < |r| ::
      r[i].incomingBuffer == connections[i].incomingBuffer
      && r[i].outgoingBuffer == connections[i].outgoingBuffer + message
  {
    seq(|connections|, i requires 0 <= i < |connections| =>
      connections[i].(outgoingBuffer := connections[i].outgoingBuffer + message))
  }

  /** Broadcasting twice is broadcasting the two messages one after the other. */
  lemma BroadcastTwice(connections: seq<Connection>, first: string, second: string)
    ensures Broadcast(Broadcast(connections, first), second) == Broadcast(connections, first + second)
  {
    var a := Broadcast(Broadcast(connections, first), second);
    var b := Broadcast(connections, first + second);
    forall i | 0 <= i < |connections| ensures a[i] == b[i] {
      assert connections[i].outgoingBuffer + first + second == connections[i].outgoingBuffer + (first + second);
    }
  }

  /** Serving the first message of a queue, then the rest, is serving the queue. */
  lemma ServeOne(s: HostState, queue: seq<Message>, sentBefore: string)
    requires Sized(s.game) && queue != []
    ensures var step := HostStep(s, queue[0]);
      var later := HostServe(step.0, queue[1..]);
      && later.0 == HostServe(s, queue).0
      && (sentBefore + step.1) + later.1 == sentBefore + HostServe(s, queue).1
  {
    var step := HostStep(s, queue[0]);
    var later := HostServe(step.0, queue[1..]);
    assert (sentBefore + step.1) + later.1 == sentBefore + (step.1 + later.1);
  }

  lemma BroadcastEmpty(connections: seq<Connection>)
    ensures Broadcast(connections, []) == connections
  {
    assert forall i | 0 <= i < |connections| :: connections[i].outgoingBuffer + [] == connections[i].outgoingBuffer;
  }

  /** What the first guest is sent on connecting: a PIECE line for every host (dark) piece, then
      one for every guest (light) piece, each at its mirrored index, then whose turn it is, seen
      from the guest (1 when the host is not the one to move). */
  function Greeting(dark: seq<nat>, light: seq<nat>, active: bool): seq<Message>
  {
    PieceLines(0, dark) + PieceLines(1, light) + [Turn(if active then 0 else 1)]
  }

  class NetworkServer {
    const base: NetworkingBase
    const board: CheckersBoard
    var connections: seq<Connection>

    /** The queue holds constructed messages and the board is the host's (dark) board. */
    ghost predicate Valid()
      reads this, base, board, board.currentState, board.currentState.tiles
    {
      base.Valid() && board.Valid() && board.currentState.currentPlayer == Dark
    }

    /** The state the `GameUpdate` loop works on. */
    function Host(): HostState
      reads this, base, board, board.currentState, board.currentState.tiles
    {
      HostState(board.Model().game, base.active, base.logTurn)
    }

    /** `NetworkServer(app)`, for the board of an application started as the host. */
    constructor (board: CheckersBoard)
      requires board.Valid() && board.currentState.currentPlayer == Dark
      ensures Valid() && this.board == board && fresh(base)
      ensures connections == [] && base.incomingMessages == [] && base.active && base.logTurn
    {
      this.base := new NetworkingBase();
      this.board := board;
      connections := [];
    }

    /** `OnMessage(message)`: decode the line with the host's decoder and queue what it yields. */
    method OnMessage(message: string)
      requires Valid()
      modifies base`incomingMessages
      ensures Valid() && base.incomingMessages == old(base.incomingMessages) + Enqueued(ServerDecode(message))
    {
      base.Push(ServerDecode(message));
    }

    /** `SendToAll(message)`. */
    method SendToAll(message: string)
      modifies this`connections
      ensures connections == Broadcast(old(connections), message)
    {
      var i := 0;
      while i < |connections|
        invariant i <= |connections| == |old(connections)|
        invariant forall j | 0 <= j < |connections| ::
          connections[j] == if j < i then Broadcast(old(connections), message)[j] else old(connections)[j]
      {
        connections := connections[i := connections[i].(outgoingBuffer := connections[i].outgoingBuffer + message)];
        i := i + 1;
      }
    }

    /** `HandleInput(message)`: a line from the local board is queued like a received one, and
        unless it is the RESTART line the turn passes to the guest, who is told so with ACTIVE. */
    method HandleInput(message: string)
      requires Valid()
      modifies this`connections, base`incomingMessages, base`active, base`logTurn
      ensures Valid() && base.incomingMessages == old(base.incomingMessages) + Enqueued(ServerDecode(message))
      ensures message != RestartTemplate ==>
        !base.active && base.logTurn && connections == Broadcast(old(connections), Encode(Active))
      ensures message == RestartTemplate ==>
        base.active == old(base.active) && base.logTurn == old(base.logTurn) && connections == old(connections)
    {
      OnMessage(message);
      if message != RestartTemplate {
        base.active := false;
        SendToAll(Encode(Active));
        base.logTurn := true;
      }
    }

    /** A new guest is accepted (the connection is added at the end of the table) and greeted
        (`OnConnectionEstablished`): any guest beyond the first only gets GAME IS FULL and stays in
        the table; the first gets the board and the turn. The enumerations of the host's pieces
        are returned, in the order the sets gave them. */
    method Accept() returns (dark: seq<nat>, light: seq<nat>)
      requires Valid()
      modifies this`connections
      ensures Valid() && |connections| == |old(connections)| + 1
      ensures connections[..|old(connections)|] == old(connections)
      ensures connections[|old(connections)|].incomingBuffer == []
      ensures |old(connections)| > 0 ==>
        connections[|old(connections)|].outgoingBuffer == GameFullTemplate && dark == [] && light == []
      ensures |old(connections)| == 0 ==>
        && Members(dark) == board.currentState.myPieces && NoDup(dark)
        && Members(light) == board.currentState.otherPieces && NoDup(light)
        && connections[0].outgoingBuffer == Concat(Greeting(dark, light, base.active))
    {
      connections := connections + [Connection([], [])];
      dark, light := [], [];
      if |connections| > 1 {
        connections := connections[|connections| - 1 := connections[|connections| - 1].(outgoingBuffer := GameFullTemplate)];
      } else {
        dark, light := board.GetAllPiecesIndex();
        var out := Greet(dark, light, base.active);
        connections := [Connection([], out)];
      }
    }

    /** One read from connection `i` (the read half of `WinsockUpdate`): an empty chunk means the
        guest is gone and the connection leaves the table; otherwise the chunk is appended and, if
        the buffer now holds a newline, the line before it is taken out and decoded. */
    method Receive(i: nat, chunk: string) returns (line: Option<string>)
      requires Valid() && i < |connections| && |chunk| <= ReadChunk
      modifies this`connections, base`incomingMessages
      ensures Valid()
      ensures chunk == [] ==>
        line == None && connections == old(connections[..i] + connections[i + 1..])
        && base.incomingMessages == old(base.incomingMessages)
      ensures chunk != [] ==>
        var t := Read(old(connections[i].incomingBuffer), chunk);
        && line == t.line
        && connections == old(connections)[i := old(connections[i]).(incomingBuffer := t.rest)]
        && base.incomingMessages == old(base.incomingMessages) + (if line.Some? then Enqueued(ServerDecode(line.value)) else [])
    {
      if chunk == [] {
        connections := connections[..i] + connections[i + 1..];
        return None;
      }
      var buffer := connections[i].incomingBuffer + chunk;
      var t := TakeLine(buffer);
      connections := connections[i := connections[i].(incomingBuffer := t.rest)];
      line := t.line;
      if line.Some? {
        OnMessage(line.value);
      }
    }

    /** One send to connection `i` (the send half of `WinsockUpdate`): at most 8 queued bytes are
        offered; the count `send` reports leaves the front of the buffer, and a count of zero or
        less drops the connection. The bytes that left are returned. */
    method Send(i: nat, sentBytes: int) returns (sent: string)
      requires i < |connections| && connections[i].outgoingBuffer != []
      requires sentBytes <= SendSize(ServerChunk, connections[i].outgoingBuffer)
      modifies this`connections
      ensures sentBytes > 0 ==>
        && |connections| == |old(connections)|
        && old(connections[i].outgoingBuffer) == sent + connections[i].outgoingBuffer
        && |sent| == sentBytes
        && connections == old(connections)[i := old(connections[i]).(outgoingBuffer := old(connections[i].outgoingBuffer)[sentBytes..])]
      ensures sentBytes <= 0 ==> sent == [] && connections == old(connections[..i] + connections[i + 1..])
    {
      var outgoing := connections[i].outgoingBuffer;
      if sentBytes > 0 {
        sent := outgoing[..sentBytes];
        connections := connections[i := connections[i].(outgoingBuffer := outgoing[sentBytes..])];
      } else {
        sent := [];
        connections := connections[..i] + connections[i + 1..];
      }
    }

    /** `GameUpdate(gameRunning)`: when the game has stopped the host gives up the turn and applies
        nothing; otherwise every queued message is applied and forwarded, oldest first, as
        `HostServe` says, and the queue is left empty. */
    method GameUpdate(gameRunning: bool)
      requires Valid()
      modifies this`connections, base, board.currentState, board.currentState.tiles
      ensures Valid()
      ensures !gameRunning ==>
        && Host() == old(Host()).(active := false) && board.Model() == old(board.Model())
        && connections == old(connections) && base.incomingMessages == old(base.incomingMessages)
      ensures gameRunning ==>
        var r := HostServe(old(Host()), old(base.incomingMessages));
        && Host() == r.0 && base.incomingMessages == []
        && board.Model() == old(board.Model()).(game := r.0.game)
        && connections == Broadcast(old(connections), r.1)
    {
      if !gameRunning {
        base.active := false;
        return;
      }
      ghost var startBoard := board.Model();
      ghost var final := HostServe(Host(), base.incomingMessages);
      ghost var sent: string := [];
      BroadcastEmpty(connections);
      var done := false;
      while !done
        invariant Valid()
        invariant board.Model() == startBoard.(game := Host().game)
        invariant HostServe(Host(), base.incomingMessages).0 == final.0
        invariant sent + HostServe(Host(), base.incomingMessages).1 == final.1
        invariant connections == Broadcast(old(connections), sent)
        invariant done ==> base.incomingMessages == []
        decreases !done, |base.incomingMessages|
      {
        done, sent := ServeNext(old(connections), sent);
      }
      assert HostServe(Host(), base.incomingMessages) == (Host(), []);
      assert sent + [] == sent;
    }

    /** One turn of the `GameUpdate` loop: take the oldest message, if any, and handle it. What
        is left to serve, together with what was sent, is what was left before. */
    method ServeNext(ghost start: seq<Connection>, ghost sentBefore: string) returns (done: bool, ghost sent: string)
      requires Valid() && connections == Broadcast(start, sentBefore)
      modifies this`connections, base, board.currentState, board.currentState.tiles
      ensures Valid() && board.Model() == old(board.Model()).(game := Host().game)
      ensures connections == Broadcast(start, sent)
      ensures HostServe(Host(), base.incomingMessages).0 == HostServe(old(Host()), old(base.incomingMessages)).0
      ensures sent + HostServe(Host(), base.incomingMessages).1 == sentBefore + HostServe(old(Host()), old(base.incomingMessages)).1
      ensures done ==> base.incomingMessages == []
      ensures !done ==> |base.incomingMessages| < |old(base.incomingMessages)|
    {
      ghost var before := Host();
      ghost var queue := base.incomingMessages;
      var msg := base.GetNextMessage();
      if msg.None? {
        sent := sentBefore;
        return true, sent;
      }
      done := false;
      HandleMessage(msg.value);
      ghost var step := HostStep(before, msg.value).1;
      ServeOne(before, queue, sentBefore);
      BroadcastTwice(start, sentBefore, step);
      sent := sentBefore + step;
    }

    /** One pass of the `GameUpdate` loop. */
    method HandleMessage(msg: Message)
      requires Valid() && WellFormed(msg)
      modifies this`connections, base`active, base`logTurn, board.currentState, board.currentState.tiles
      ensures Valid() && base.incomingMessages == old(base.incomingMessages)
      ensures var step := HostStep(old(Host()), msg);
        && Host() == step.0
        && board.Model() == old(board.Model()).(game := step.0.game)
        && connections == Broadcast(old(connections), step.1)
    {
      match msg {
        case Kill(_, _) =>
          HandleKill(msg);
        case Move(_, _, _) =>
          HandleMove(msg);
        case Active =>
          base.active := true;
          base.logTurn := true;
          BroadcastEmpty(connections);
        case Restart =>
          RestartKeepsPlayer(board.Model().game);
          board.Restart();
          SendToAll(Encode(Messages.Restart));
        case _ =>
          BroadcastEmpty(connections);
      }
    }

    /** The KILL line of `HandleMessage`. */
    method HandleKill(msg: Message)
      requires Valid() && msg.Kill?
      modifies this`connections, board.currentState, board.currentState.tiles
      ensures Valid() && base.incomingMessages == old(base.incomingMessages)
      ensures var step := HostStep(old(Host()), msg);
        && Host() == step.0
        && board.Model() == old(board.Model()).(game := step.0.game)
        && connections == Broadcast(old(connections), step.1)
    {
      var local := HostLocal(msg).index;
      if IsIndex(local) {
        board.Remove(local);
      }
      SendToAll(Encode(HostForward(msg)));
    }

    /** The MOVE line of `HandleMessage`. */
    method HandleMove(msg: Message)
      requires Valid() && msg.Move?
      modifies this`connections, board.currentState, board.currentState.tiles
      ensures Valid() && base.incomingMessages == old(base.incomingMessages)
      ensures var step := HostStep(old(Host()), msg);
        && Host() == step.0
        && board.Model() == old(board.Model()).(game := step.0.game)
        && connections == Broadcast(old(connections), step.1)
    {
      var local := HostLocal(msg);
      if IsIndex(local.fromIndex) && IsIndex(local.destIndex) {
        board.Move(local.fromIndex, local.destIndex);
      }
      SendToAll(Encode(HostForward(msg)));
    }
  }

  /** The PIECE lines of one side, at mirrored indices. */
  function PieceLines(side: nat, indices: seq<nat>): seq<Message>
  {
    seq(|indices|, i requires 0 <= i < |indices| => Piece(side, Mirror(indices[i])))
  }

  /** The greeting's bytes, built line by line as `OnConnectionEstablished` does. */
  method Greet(dark: seq<nat>, light: seq<nat>, active: bool) returns (out: string)
    ensures out == Concat(Greeting(dark, light, active))
  {
    out := AppendPieces([], [], 0, dark);
    assert [] + PieceLines(0, dark) == PieceLines(0, dark);
    out := AppendPieces(out, PieceLines(0, dark), 1, light);
    out := AppendLine(out, PieceLines(0, dark) + PieceLines(1, light), Turn(if active then 0 else 1));
  }

  /** Append one line. */
  method AppendLine(out: string, ghost before: seq<Message>, m: Message) returns (out': string)
    requires out == Concat(before)
    ensures out' == Concat(before + [m])
  {
    ConcatAppend(before, m);
    out' := out + Encode(m);
  }

  /** Append a PIECE line for each index in turn (one loop of `OnConnectionEstablished`). */
  method AppendPieces(out: string, ghost before: seq<Message>, side: nat, indices: seq<nat>) returns (out': string)
    requires out == Concat(before)
    ensures out' == Concat(before + PieceLines(side, indices))
  {
    out' := out;
    assert indices[..0] == [] && before + PieceLines(side, []) == before;
    for i := 0 to |indices|
      invariant out' == Concat(before + PieceLines(side, indices[..i]))
    {
      PiecesStep(before, side, indices, i);
      out' := out' + Encode(Piece(side, Mirror(indices[i])));
    }
    assert indices[..|indices|] == indices;
  }

  /** One more index adds its PIECE line at the end. */
  lemma PiecesStep(before: seq<Message>, side: nat, indices: seq<nat>, i: nat)
    requires i < |indices|
    ensures Concat(before + PieceLines(side, indices[..i + 1]))
      == Concat(before + PieceLines(side, indices[..i])) + Encode(Piece(side, Mirror(indices[i])))
  {
    var m := Piece(side, Mirror(indices[i]));
    assert indices[..i + 1][i] == indices[i];
    assert PieceLines(side, indices[..i + 1]) == PieceLines(side, indices[..i]) + [m];
    assert before + PieceLines(side, indices[..i + 1]) == (before + PieceLines(side, indices[..i])) + [m];
    ConcatAppend(before + PieceLines(side, indices[..i]), m);
  }

  /** What a guest sends (its board's KILL and MOVE lines and ACTIVE), read by the host chunk by
      chunk however the bytes were cut, is decoded into those messages, in order. */
  lemma HostReadsInOrder(sent: seq<Message>, chunks: seq<string>, unread: string)
    requires forall i | 0 <= i < |sent| :: sent[i].Kill? || sent[i].Move? || sent[i].Active?
    requires Flatten(chunks) + unread == Concat(sent)
    ensures var read := ReadAll([], chunks).1;
      && |read| <= |sent|
      && forall i | 0 <= i < |read| :: ServerDecode(read[i]) == Construct(sent[i])
  {
    ConcatJoined(sent);
    LinesInOrder(LinesOf(sent), chunks, unread);
    var read := ReadAll([], chunks).1;
    forall i | 0 <= i < |read| ensures ServerDecode(read[i]) == Construct(sent[i]) {
      assert read[i] == LinesOf(sent)[i] == Line(sent[i]);
      ServerReadsWire(sent[i]);
    }
  }
}
