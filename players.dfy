/** What a room sees of a connected client (Player.cs), with the socket, the
    background reader and the stopwatch abstracted away:

    - `live` stands for "the TCP client still reports a stream and is
      connected". Disposing a player clears it, and so does a send that
      throws: the socket then reports itself disconnected.
    - `writesLeft` is how many more SendMessage calls succeed before the
      connection breaks; a send with none left (or to a dead client) throws.
    - `inbox` is the script of messages the player will answer with, in
      order. GetNextMessage takes the first one, or gives null when the
      player has nothing more to say; HasNewMessage tells whether one waits.
    - `outbox` logs every message the room managed to send.
    - the clock accrues time only while it is started. */
module Players {
  import opened Wrappers
  import opened WireFormat

  /** The messages the room exchanges with players, with just the fields the
      room reads or fills in. */
  datatype Msg =
    | Ack
    | Reject
    | PlayerJoined(userName: string)
    | PlayerLeft
    | GetReady(isWhite: bool, clockTimeMillis: Int64, gameStartFen: string)
    | IsReady
    | GameStart
    | MoveMessage(moveName: string, opponentClockElapsed: nat, yourClockElapsed: nat)
    | GameOver
    | ShutdownMsg(reason: string)
    | TimeOut(itWasYou: bool)

  datatype Player = Player(
    sessionId: string,
    userName: string,
    live: bool,
    writesLeft: nat,
    inbox: seq<Msg>,
    outbox: seq<Msg>,
    clockRunning: bool,
    elapsed: nat)
  {
    /** SendMessage completes instead of throwing. */
    predicate CanSend() {
      live && writesLeft > 0
    }

    /** The player after a SendMessage that completed. */
    function Sent(m: Msg): (p: Player)
      requires CanSend()
    {
      this.(outbox := outbox + [m], writesLeft := writesLeft - 1)
    }

    /** The player after a SendMessage that threw: the write failed, so the
        client no longer reports itself connected. */
    function Broken(): Player {
      this.(live := false)
    }

    /** The player after a SendMessage, whichever way it ended. */
    function Attempted(m: Msg): (p: Player)
      ensures CanSend() ==> p.live && p.outbox == outbox + [m] && p.writesLeft == writesLeft - 1
      ensures !CanSend() ==> !p.live && p.outbox == outbox && p.writesLeft == writesLeft
      ensures p.inbox == inbox && p.sessionId == sessionId && p.userName == userName
    {
      if CanSend() then Sent(m) else Broken()
    }

    predicate HasNewMessage() {
      inbox != []
    }

    /** What GetNextMessage returns: the next scripted reply, or null. */
    function NextMessage(): Option<Msg> {
      if inbox == [] then None else Some(inbox[0])
    }

    /** The player after GetNextMessage. */
    function Consumed(): Player {
      if inbox == [] then this else this.(inbox := inbox[1..])
    }

    function Started(): Player {
      this.(clockRunning := true)
    }

    function Paused(): Player {
      this.(clockRunning := false)
    }

    /** `k` milliseconds pass. */
    function Advanced(k: nat): Player {
      if clockRunning then this.(elapsed := elapsed + k) else this
    }

    function Disposed(): Player {
      this.(live := false)
    }
  }

  /** The connection a joining player arrives on (the TcpClient). */
  datatype Client = Client(live: bool, writesLeft: nat, script: seq<Msg>)

  /** new Player(client, userName, sessionId): a stopped clock at zero and
      nothing sent yet. Only meaningful for a connected client; the
      constructor throws on any other. The inbox is the script of replies
      the client will give, not a mailbox: a new Player has no reading task
      yet, so in the source HasNewMessage is false until the first send. The
      room always sends before it reads, so the difference never shows. */
  function Arrival(client: Client, userName: string, sessionId: string): (p: Player)
    ensures p.sessionId == sessionId && p.userName == userName
    ensures p.outbox == [] && !p.clockRunning && p.elapsed == 0
    ensures p.CanSend() <==> client.live && client.writesLeft > 0
    ensures p.HasNewMessage() <==> client.script != []
    ensures client.script != [] ==> p.NextMessage() == Some(client.script[0])
  {
    Player(sessionId, userName, client.live, client.writesLeft, client.script, [], false, 0)
  }
}
