/**
 * The guest's networking (Source/Application/Networking/NetworkClient.cpp): one connection to the
 * host with its incoming and outgoing byte buffers, the decoding of lines into the message queue,
 * and the loop that applies queued messages to the guest's board as they come. The application's
 * running flag (`App::Running`, `App::Stop`) is a field here. Sockets are left out: `select`'s
 * verdict, the chunk `recv` delivered and the count `send` reported are parameters.
 */
module NetworkClients {
  import opened Wrappers
  import opened CheckersConstants
  import opened GameRules
  import opened Messages
  import opened Framing
  import opened Networking
  import opened Dispatch
  import opened Boards

  /** What one `recv` delivered: some bytes (none when the host closed the connection) or an
      error. */
  datatype Received = Bytes(chunk: string) | Failed

  class NetworkClient {
    const base: NetworkingBase
    const board: CheckersBoard
    var appRunning: bool
    var connected: bool
    var incomingBuffer: string
    var outgoingBuffer: string

    /** The queue holds constructed messages and the board is the guest's (light) board. */
    ghost predicate Valid()
      reads this, base, board, board.currentState, board.currentState.tiles
    {
      base.Valid() && board.Valid() && board.currentState.currentPlayer == Light
    }

    /** The state the `GameUpdate` loop works on. */
    function Guest(): GuestState
      reads this, base, board, board.currentState, board.currentState.tiles
    {
      GuestState(board.Model().game, base.active, base.logTurn, appRunning)
    }

    /** `NetworkClient(app)`, for the board of a running application started as the guest: not
        connected, nothing buffered or queued, active, and no turn to log. */
    constructor (board: CheckersBoard)
      requires board.Valid() && board.currentState.currentPlayer == Light
      ensures Valid() && this.board == board && fresh(base)
      ensures appRunning && !connected && incomingBuffer == [] && outgoingBuffer == []
      ensures base.incomingMessages == [] && base.active && !base.logTurn
    {
      this.base := new NetworkingBase();
      this.board := board;
      appRunning := true;
      connected := false;
      incomingBuffer := [];
      outgoingBuffer := [];
      new;
      base.logTurn := false;
    }

    /** `OnMessage(message)`: decode the line with the guest's decoder and queue what it yields. */
    method OnMessage(message: string)
      requires Valid()
      modifies base`incomingMessages
      ensures Valid() && base.incomingMessages == old(base.incomingMessages) + Enqueued(ClientDecode(message))
    {
      base.Push(ClientDecode(message));
    }

    /** `HandleInput(message)`: a line from the local board is queued for sending, followed by
        ACTIVE, and the turn passes to the host. */
    method HandleInput(message: string)
      modifies this`outgoingBuffer, base`active, base`logTurn
      ensures outgoingBuffer == old(outgoingBuffer) + message + ActiveTemplate
      ensures !base.active && base.logTurn
    {
      outgoingBuffer := outgoingBuffer + message;
      base.active := false;
      outgoingBuffer := outgoingBuffer + ActiveTemplate;
      base.logTurn := true;
    }

    /** The head of `WinsockUpdate`, once `select` has reported: with no host to write to the
        application stops; the first writable report completes the connection. Whether the rest
        of `WinsockUpdate` (send, then read) runs is returned. */
    method Poll(writable: bool) returns (proceed: bool)
      modifies this`appRunning, this`connected
      ensures proceed <==> writable && old(connected)
      ensures !writable ==> !appRunning && connected == old(connected)
      ensures writable ==> connected && appRunning == old(appRunning)
    {
      if !writable {
        appRunning := false;
        return false;
      }
      if !connected {
        connected := true;
        return false;
      }
      return true;
    }

    /** The send half of `WinsockUpdate`: at most 64 queued bytes are offered; the count `send`
        reports leaves the front of the buffer, and a count of zero or less loses the connection.
        The bytes that left are returned. */
    method Send(sentBytes: int) returns (sent: string)
      requires connected && outgoingBuffer != []
      requires sentBytes <= SendSize(ClientChunk, outgoingBuffer)
      modifies this`outgoingBuffer, this`connected
      ensures sentBytes > 0 ==>
        && connected && |sent| == sentBytes
        && old(outgoingBuffer) == sent + outgoingBuffer
      ensures sentBytes <= 0 ==> sent == [] && !connected && outgoingBuffer == old(outgoingBuffer)
    {
      if sentBytes > 0 {
        sent := outgoingBuffer[..sentBytes];
        outgoingBuffer := outgoingBuffer[sentBytes..];
      } else {
        sent := [];
        connected := false;
      }
    }

    /** The read half of `WinsockUpdate`: an error, or a closed connection, loses the connection
        unless the guest holds the turn; otherwise the bytes are appended and, if the buffer now
        holds a newline, the line before it is taken out and decoded. */
    method Receive(received: Received) returns (line: Option<string>)
      requires Valid()
      requires received.Bytes? ==> |received.chunk| <= ReadChunk
      requires received.Failed? ==> !base.active
      modifies this`connected, this`incomingBuffer, base`incomingMessages
      ensures Valid()
      ensures (received.Failed? || received.chunk == []) && !base.active ==>
        && line == None && !connected && incomingBuffer == old(incomingBuffer)
        && base.incomingMessages == old(base.incomingMessages)
      ensures received.Bytes? && (received.chunk != [] || base.active) ==>
        var t := Read(old(incomingBuffer), received.chunk);
        && line == t.line && incomingBuffer == t.rest && connected == old(connected)
        && base.incomingMessages == old(base.incomingMessages) + (if line.Some? then Enqueued(ClientDecode(line.value)) else [])
    {
      if (received.Failed? || received.chunk == []) && !base.active {
        connected := false;
        return None;
      }
      var t := TakeLine(incomingBuffer + received.chunk);
      incomingBuffer := t.rest;
      line := t.line;
      if line.Some? {
        OnMessage(line.value);
      }
    }

    /** `GameUpdate(gameRunning)`: when the game has stopped the guest gives up the turn and
        applies nothing; otherwise queued messages are applied, oldest first, as `GuestServe`
        says, until the queue is empty or GAME IS FULL stops the application. */
    method GameUpdate(gameRunning: bool)
      requires Valid()
      modifies this`appRunning, base, board.currentState, board.currentState.tiles
      ensures Valid()
      ensures !gameRunning ==>
        && Guest() == old(Guest()).(active := false) && board.Model() == old(board.Model())
        && base.incomingMessages == old(base.incomingMessages)
      ensures gameRunning ==>
        var r := GuestServe(old(Guest()), old(base.incomingMessages));
        && Guest() == r.0 && base.incomingMessages == r.1
        && board.Model() == old(board.Model()).(game := r.0.game)
    {
      if !gameRunning {
        base.active := false;
        return;
      }
      ghost var startBoard := board.Model();
      ghost var final := GuestServe(Guest(), base.incomingMessages);
      var done := false;
      while appRunning && !done
        invariant Valid()
        invariant board.Model() == startBoard.(game := Guest().game)
        invariant GuestServe(Guest(), base.incomingMessages) == final
        invariant done ==> base.incomingMessages == []
        decreases |base.incomingMessages|, !done
      {
        done := ServeNext();
      }
    }

    /** One turn of the `GameUpdate` loop: take the oldest message, if any, and apply it. What is
        left to serve is what was left before. */
    method ServeNext() returns (done: bool)
      requires Valid() && appRunning
      modifies this`appRunning, base, board.currentState, board.currentState.tiles
      ensures Valid() && board.Model() == old(board.Model()).(game := Guest().game)
      ensures GuestServe(Guest(), base.incomingMessages) == GuestServe(old(Guest()), old(base.incomingMessages))
      ensures done ==> base.incomingMessages == [] && Guest() == old(Guest())
      ensures !done ==> |base.incomingMessages| < |old(base.incomingMessages)|
    {
      ghost var before := Guest();
      ghost var queue := base.incomingMessages;
      var msg := base.GetNextMessage();
      if msg.None? {
        return true;
      }
      done := false;
      HandleMessage(msg.value);
      GuestOne(before, queue);
    }

    /** One pass of the `GameUpdate` loop: the message is applied to the board as it comes. */
    method HandleMessage(msg: Message)
      requires Valid() && WellFormed(msg)
      modifies this`appRunning, base`active, base`logTurn, board.currentState, board.currentState.tiles
      ensures Valid() && base.incomingMessages == old(base.incomingMessages)
      ensures Guest() == GuestStep(old(Guest()), msg)
      ensures board.Model() == old(board.Model()).(game := Guest().game)
    {
      match msg {
        case Kill(index, _) =>
          if IsIndex(index) {
            board.Remove(index);
          }
        case Move(fromIndex, destIndex, _) =>
          if IsIndex(fromIndex) && IsIndex(destIndex) {
            board.Move(fromIndex, destIndex);
          }
        case GameFull =>
          appRunning := false;
        case Active =>
          base.active := true;
          base.logTurn := true;
        case Piece(side, destIndex) =>
          if IsIndex(destIndex) {
            board.PlacePiece(ColorOf(side), destIndex);
          }
        case Turn(side) =>
          base.active := side != 0;
          base.logTurn := true;
        case Restart =>
          RestartKeepsPlayer(board.Model().game);
          board.Restart();
      }
    }
  }

  /** Applying the first message of a queue, then serving the rest, is serving the queue. */
  lemma GuestOne(s: GuestState, queue: seq<Message>)
    requires Sized(s.game) && s.game.player == Light && s.running && queue != []
    requires forall i | 0 <= i < |queue| :: WellFormed(queue[i])
    ensures WellFormed(queue[0]) && GuestServe(GuestStep(s, queue[0]), queue[1..]) == GuestServe(s, queue)
  {
  }

  /** The bytes `HandleInput` queues for a KILL or MOVE line of the guest's board are read by the
      host as two lines, which it decodes into that message and ACTIVE. */
  lemma InputReachesHost(m: Message)
    requires m.Kill? || m.Move?
    ensures var first := TakeLine(Encode(m) + ActiveTemplate);
      var second := TakeLine(first.rest);
      && first.line == Some(Line(m)) && ServerDecode(first.line.value) == Construct(m)
      && second.line == Some(Line(Active)) && second.rest == []
      && ServerDecode(second.line.value) == Queued(Active)
  {
    EncodeLine(m);
    ActiveLine();
    TwoLines(Line(m), Line(Active));
    ServerReadsWire(m);
    ServerReadsWire(Active);
  }

  /** The ACTIVE template is the ACTIVE line and its newline. */
  lemma ActiveLine()
    ensures ActiveTemplate == Line(Active) + "\n" && '\n' !in Line(Active)
  {
    EncodeLine(Active);
    PlainLine(Active);
    Templates(Active);
  }

  /** Two lines, each with its newline, are taken out one after the other. */
  lemma TwoLines(a: string, b: string)
    requires '\n' !in a && '\n' !in b
    ensures var first := TakeLine((a + "\n") + (b + "\n"));
      && first == Taken(Some(a), b + "\n")
      && TakeLine(first.rest) == Taken(Some(b), [])
  {
    assert (a + "\n") + (b + "\n") == a + "\n" + (b + "\n");
    TakeLineUnique(a, b + "\n");
    assert b + "\n" == b + "\n" + [];
    TakeLineUnique(b, []);
  }

  /** What the host sends, read by the guest chunk by chunk however the bytes were cut, is decoded
      into those messages, in order. */
  lemma GuestReadsInOrder(sent: seq<Message>, chunks: seq<string>, unread: string)
    requires Flatten(chunks) + unread == Concat(sent)
    ensures var read := ReadAll([], chunks).1;
      && |read| <= |sent|
      && forall i | 0 <= i < |read| :: ClientDecode(read[i]) == Construct(sent[i])
  {
    ConcatJoined(sent);
    LinesInOrder(LinesOf(sent), chunks, unread);
    var read := ReadAll([], chunks).1;
    forall i | 0 <= i < |read| ensures ClientDecode(read[i]) == Construct(sent[i]) {
      assert read[i] == LinesOf(sent)[i] == Line(sent[i]);
      ClientReadsWire(sent[i]);
    }
  }
}
