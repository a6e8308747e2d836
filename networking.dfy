/**
 * `NetworkingBase` (Source/Application/Networking/Network.h): the queue of decoded messages waiting
 * to be applied, and the `active` and `logTurn` flags the server and the client share. The server
 * and the client each own one of these in place of deriving from it.
 */
module Networking {
  import opened Wrappers
  import opened Messages

  /** The messages a decode result puts on the queue: the message if it was constructed, none if
      its constructor refused it or the line was not understood. */
  function Enqueued(d: Decoded): (q: seq<Message>)
    ensures |q| <= 1
    ensures q != [] <==> d.Queued?
    ensures forall i | 0 <= i < |q| :: q[i] == d.msg
  {
    if d.Queued? then [d.msg] else []
  }

  class NetworkingBase {
    var incomingMessages: seq<Message>
    var active: bool
    var logTurn: bool

    /** Only messages whose constructor accepted them are ever queued. */
    ghost predicate Valid()
      reads this
    {
      forall i | 0 <= i < |incomingMessages| :: WellFormed(incomingMessages[i])
    }

    /** `NetworkingBase(app)`: nothing queued, active, and the turn to be logged. */
    constructor ()
      ensures Valid() && incomingMessages == [] && active && logTurn
    {
      incomingMessages := [];
      active := true;
      logTurn := true;
    }

    /** `m_incomingMessages.emplace(new ...)`: the tail of `OnMessage`, for a decode result. */
    method Push(d: Decoded)
      requires Valid() && (d.Queued? ==> WellFormed(d.msg))
      modifies this`incomingMessages
      ensures Valid() && incomingMessages == old(incomingMessages) + Enqueued(d)
    {
      if d.Queued? {
        incomingMessages := incomingMessages + [d.msg];
      }
    }

    /** `GetNextMessage`: the oldest queued message, taken off the queue, or none. */
    method GetNextMessage() returns (msg: Option<Message>)
      requires Valid()
      modifies this`incomingMessages
      ensures Valid()
      ensures old(incomingMessages) == [] ==> msg == None && incomingMessages == []
      ensures old(incomingMessages) != [] ==>
        msg == Some(old(incomingMessages)[0]) && incomingMessages == old(incomingMessages)[1..]
      ensures msg.Some? ==> WellFormed(msg.value)
    {
      if incomingMessages == [] {
        return None;
      }
      msg := Some(incomingMessages[0]);
      incomingMessages := incomingMessages[1..];
    }

    /** The head of `Update`: a turn change waiting to be logged is logged once, saying whether
        this side holds the turn. */
    method TakeTurnLog() returns (logged: Option<bool>)
      modifies this`logTurn
      ensures !logTurn
      ensures old(logTurn) ==> logged == Some(active)
      ensures !old(logTurn) ==> logged == None
    {
      logged := None;
      if logTurn {
        logged := Some(active);
        logTurn := false;
      }
    }

    /** `~NetworkingBase`: every queued message is taken off the queue and freed, oldest first. */
    method Destroy() returns (freed: seq<Message>)
      modifies this`incomingMessages
      ensures freed == old(incomingMessages) && incomingMessages == []
    {
      freed := [];
      while incomingMessages != []
        invariant freed + incomingMessages == old(incomingMessages)
        decreases |incomingMessages|
      {
        freed := freed + [incomingMessages[0]];
        incomingMessages := incomingMessages[1..];
      }
    }
  }
}
