/** MatchRoom (MatchRoom.cs) as pure functions on the room's whole state: one
    function per method, per try body and per catch block, saying what the
    room looks like and what the call reports when it returns. The class in
    match_room.dfy is proved to follow these functions step by step, and
    room_properties.dfy proves what the methods promise about them.

    An exception is a value here: a call whose exception escaped reports
    `completed == false` (RemovePlayer) or `Threw` (TryAddPlayer), with the
    state as it was when the exception was raised. A send that throws leaves
    its player in the seat, no longer live. */
module RoomSpec {
  import opened Wrappers
  import opened WireFormat
  import opened Players

  datatype Colour = White | Black {
    function Opposite(): Colour {
      if this == White then Black else White
    }
  }

  /** Everything a MatchRoom call can change. `activeRooms` is the set of ids
      in GameServer.ActiveRooms; `departed` logs, in order, the final state
      of every player evicted from a seat (it is not a field of the source
      room, only a way to keep evicted players' mail visible). NextToMove is
      `toMove`; NextNotToMove is always its opposite. */
  datatype Room = Room(
    roomId: string,
    moveTime: Int64,
    white: Option<Player>,
    black: Option<Player>,
    toMove: Option<Colour>,
    inGame: bool,
    activeRooms: set<string>,
    departed: seq<Player>)
  {
    function Seat(c: Colour): Option<Player> {
      if c == White then white else black
    }

    function WithSeat(c: Colour, p: Option<Player>): Room {
      if c == White then this.(white := p) else this.(black := p)
    }

    /** How many seats hold a player. */
    function Occupied(): nat {
      (if white.Some? then 1 else 0) + (if black.Some? then 1 else 0)
    }

    /** IsWhitePlayerLive / IsBlackPlayerLive. */
    predicate Live(c: Colour) {
      Seat(c).Some? && Seat(c).value.live
    }

    /** The RoomFull property. */
    predicate Full() {
      Live(White) && Live(Black)
    }

    predicate Registered() {
      roomId in activeRooms
    }

    function Unregistered(): Room {
      this.(activeRooms := activeRooms - {roomId})
    }

    /** The last step of every RemovePlayer: with both seats empty, the room
        leaves the registry. */
    function Settled(): Room {
      if white.None? && black.None? then Unregistered() else this
    }

    /** Messages waiting in the seated players' inboxes. */
    function Pending(): nat {
      (if white.Some? then |white.value.inbox| else 0) + (if black.Some? then |black.value.inbox| else 0)
    }

    /** `k` milliseconds pass for both seated players. */
    function Ticked(k: nat): Room {
      this.(white := if white.Some? then Some(white.value.Advanced(k)) else None,
            black := if black.Some? then Some(black.value.Advanced(k)) else None)
    }
  }

  /** A new MatchRoom: no players, not in a game, the given budget. */
  function NewRoom(roomId: string, activeRooms: set<string>, moveTime: Int64): (r: Room)
  {
    Room(roomId, moveTime, None, None, None, false, activeRooms, [])
  }

  // ---------------------------------------------------------------------------
  // TrySetPlayerMoveTime

  function SetMoveTime(r: Room, millis: Int64): (Room, bool)
  {
    if r.inGame then (r, false) else (r.(moveTime := millis), true)
  }

  // ---------------------------------------------------------------------------
  // RemovePlayer

  /** The room after a RemovePlayer call; `completed` is false when the call
      ended with an exception (a PlayerLeft that could not be sent). */
  datatype Removal = Removal(room: Room, completed: bool)

  /** RemovePlayer(id, shutdown, reason): Black is checked first. */
  function Remove(r: Room, id: string, shutdown: bool, reason: string): Removal
    decreases r.Occupied(), 1
  {
    if r.black.Some? && r.black.value.sessionId == id then Evict(r, Black, shutdown, reason)
    else if r.white.Some? && r.white.value.sessionId == id then Evict(r, White, shutdown, reason)
    else Removal(r.Settled(), true)
  }

  /** The seat `c` is emptied: its player is sent the Shutdown message when
      asked to (a failure is ignored), disposed and logged as departed. */
  function Vacate(r: Room, c: Colour, shutdown: bool, reason: string): (v: Room)
    requires r.Seat(c).Some?
    ensures v.Seat(c).None? && v.Seat(c.Opposite()) == r.Seat(c.Opposite())
    ensures v.Occupied() < r.Occupied()
  {
    var p := r.Seat(c).value;
    var told := if shutdown && p.CanSend() then p.Sent(ShutdownMsg(reason)) else p;
    r.WithSeat(c, None).(departed := r.departed + [told.Disposed()])
  }

  /** One branch of RemovePlayer, for the seat `c` whose player matched. The
      player left behind, if live, is told PlayerLeft and must answer Ack;
      any other answer removes it too. */
  function Evict(r: Room, c: Colour, shutdown: bool, reason: string): Removal
    requires r.Seat(c).Some?
    decreases r.Occupied(), 0
  {
    var r1 := Vacate(r, c, shutdown, reason);
    var o := c.Opposite();
    if !r1.Live(o) then Removal(r1.Settled(), true)
    else
      var q := r1.Seat(o).value;
      if !q.CanSend() then Removal(r1.WithSeat(o, Some(q.Broken())), false)
      else
        var r2 := r1.WithSeat(o, Some(q.Sent(PlayerLeft).Consumed()));
        var reply := q.NextMessage();
        if reply == Some(Ack) then Removal(r2.Settled(), true)
        else
          var inner := Remove(r2, q.sessionId, true, CascadeReason(reply));
          if inner.completed then Removal(inner.room.Settled(), true) else inner
  }

  /** The Shutdown reason given to a player that did not Ack PlayerLeft. */
  function CascadeReason(reply: Option<Msg>): string {
    if reply.None? then "Connection lost" else "Unknown packet. Expected Ack"
  }

  // ---------------------------------------------------------------------------
  // TryAddPlayer

  /** What TryAddPlayer did: returned a value, or let an exception escape. */
  datatype Outcome = Returned(value: bool) | Threw

  datatype Attempt = Attempt(room: Room, outcome: Outcome)

  function Add(r: Room, id: string, userName: string, client: Client): Attempt
  {
    if r.inGame || r.Full() then Attempt(r, Returned(false))
    else if !client.live then Removing(r, id, false)
    else
      var p := Arrival(client, userName, id);
      if r.white.None? then Admit(r, White, p)
      else if r.black.None? then Admit(r, Black, p)
      else Attempt(r, Returned(false))
  }

  /** The joiner takes the empty seat `c`; an exception out of the
      introductions lands in the catch, which removes the joiner's id. */
  function Admit(r: Room, c: Colour, p: Player): Attempt
    requires r.Seat(c).None?
  {
    var t := Introduce(r.WithSeat(c, Some(p)), c);
    if t.outcome.Threw? then Removing(t.room, p.sessionId, false) else t
  }

  /** The introductions after the joiner sat down in seat `c`: the occupant,
      if live, is told PlayerJoined and must Ack (a Reject turns the joiner
      away, anything else removes the occupant); then the joiner is told
      about the occupant and must Ack. */
  function Introduce(r: Room, c: Colour): Attempt
    requires r.Seat(c).Some?
  {
    var o := c.Opposite();
    if !r.Live(o) then Attempt(r, Returned(true))
    else
      var p := r.Seat(c).value;
      var q := r.Seat(o).value;
      if !q.CanSend() then Attempt(r.WithSeat(o, Some(q.Broken())), Threw)
      else
        var r1 := r.WithSeat(o, Some(q.Sent(PlayerJoined(p.userName)).Consumed()));
        var response := q.NextMessage();
        if response == Some(Reject) then Removing(r1, p.sessionId, false)
        else if response != Some(Ack) then Removing(r1, q.sessionId, true)
        else if !p.CanSend() then Attempt(r1.WithSeat(c, Some(p.Broken())), Threw)
        else
          var r2 := r1.WithSeat(c, Some(p.Sent(PlayerJoined(q.userName)).Consumed()));
          if p.NextMessage() != Some(Ack) then Removing(r2, p.sessionId, false)
          else Attempt(r2, Returned(true))
  }

  /** RemovePlayer(id) followed by `return value`. */
  function Removing(r: Room, id: string, value: bool): Attempt
  {
    var rm := Remove(r, id, true, "Unknown");
    Attempt(rm.room, if rm.completed then Returned(value) else Threw)
  }

  // ---------------------------------------------------------------------------
  // TryStartNewGame

  /** What a game-loop step stands for: `Tick(k)` is k milliseconds of
      waiting, `Arrive(m)` is message m arriving from the player to move. */
  datatype Event = Tick(millis: nat) | Arrive(message: Msg)

  /** The exception types the game can raise. */
  datatype Fault = NullReference | SendFailed {
    function TypeName(): string {
      if this == NullReference then "System.NullReferenceException" else "System.IO.IOException"
    }
  }

  /** Where a stage of TryStartNewGame left off: the handshake succeeded
      (Proceed); the mover sent GameOver (Finished), ran out of time
      (Expired) or sent Shutdown (Abandoned); the try body returned (Closed);
      or an exception was raised (Faulted). */
  datatype Exit =
    | Proceed
    | Finished
    | Expired
    | Abandoned(moverId: string, opponentId: string)
    | Closed
    | Faulted(fault: Fault)

  datatype Stage = Stage(room: Room, exit: Exit)

  predicate Seated(r: Room) {
    r.white.Some? && r.black.Some?
  }

  /** A room in the game loop: both seated, a player to move whose clock runs. */
  predicate Relaying(r: Room) {
    Seated(r) && r.toMove.Some? && r.Seat(r.toMove.value).value.clockRunning
  }

  function StartGame(r: Room, fen: string, events: seq<Event>): Room
  {
    if !r.Full() then r
    else
      var s := Play(r.(inGame := true), fen, events);
      (if s.exit.Faulted? then Destroy(s.room, s.exit.fault) else s.room).(inGame := false)
  }

  /** The try body of TryStartNewGame. */
  function Play(r: Room, fen: string, events: seq<Event>): (s: Stage)
    requires Seated(r)
    ensures s.exit.Closed? || s.exit.Faulted?
  {
    var h := Handshake(r, fen);
    if !h.exit.Proceed? then h
    else
      var g := Relay(h.room, events);
      match g.exit
      case Abandoned(mover, opponent) => AfterShutdown(g.room, mover, opponent)
      case Faulted(_) => g
      case _ => Conclude(g.room)
  }

  /** GetReady to both, IsReady from both, GameStart to both, White's clock
      started and White to move. */
  function Handshake(r: Room, fen: string): (s: Stage)
    requires Seated(r)
    ensures s.exit.Proceed? || s.exit.Closed? || s.exit.Faulted?
    ensures s.exit.Proceed? ==> Relaying(s.room) && s.room.toMove == Some(White)
  {
    var w := r.white.value;
    var b := r.black.value;
    if !w.CanSend() then Stage(r.(white := Some(w.Broken())), Faulted(SendFailed))
    else
      var w1 := w.Sent(GetReady(true, r.moveTime, fen));
      if !b.CanSend() then Stage(r.(white := Some(w1), black := Some(b.Broken())), Faulted(SendFailed))
      else
        var b1 := b.Sent(GetReady(false, r.moveTime, fen));
        var r1 := r.(white := Some(w1.Consumed()), black := Some(b1));
        if w1.NextMessage() != Some(IsReady) then Unready(r1, w.sessionId, w1.NextMessage())
        else
          var r2 := r1.(black := Some(b1.Consumed()));
          if b1.NextMessage() != Some(IsReady) then Unready(r2, b.sessionId, b1.NextMessage())
          else Kickoff(r2)
  }

  /** RemovePlayer of a player that did not answer IsReady: it is sent
      Shutdown only when it said something other than Shutdown. */
  function Unready(r: Room, id: string, reply: Option<Msg>): (s: Stage)
    ensures s.exit.Closed? || s.exit.Faulted?
  {
    var rm := Remove(r, id, reply.Some? && !reply.value.ShutdownMsg?, "Unresponsive client");
    Stage(rm.room, if rm.completed then Closed else Faulted(SendFailed))
  }

  function Kickoff(r: Room): (s: Stage)
    requires Seated(r)
    ensures s.exit.Proceed? || s.exit.Faulted?
    ensures s.exit.Proceed? ==> Relaying(s.room) && s.room.toMove == Some(White)
  {
    var w := r.white.value;
    if !w.CanSend() then Stage(r.(white := Some(w.Broken())), Faulted(SendFailed))
    else
      var r1 := r.(white := Some(w.Sent(GameStart)));
      var b := r1.black.value;
      if !b.CanSend() then Stage(r1.(black := Some(b.Broken())), Faulted(SendFailed))
      else Stage(r1.(white := Some(r1.white.value.Started()), black := Some(b.Sent(GameStart)),
                     toMove := Some(White)), Proceed)
  }

  /** The game loop, driven by `events`: wait for the mover, then act on
      what it sent. */
  function Relay(r: Room, events: seq<Event>): (s: Stage)
    requires Relaying(r)
    ensures s.exit.Finished? || s.exit.Expired? || s.exit.Abandoned? || s.exit.Faulted?
    decreases 2 * |events| + r.Pending(), 2
  {
    if r.Seat(r.toMove.value).value.HasNewMessage() then Dispatch(r, events) else Await(r, events)
  }

  /** The mover has nothing pending. Once its clock has reached the budget it
      loses on time; before that the next event happens, and when the events
      run out its clock runs on to the budget. */
  function Await(r: Room, events: seq<Event>): (s: Stage)
    requires Relaying(r) && !r.Seat(r.toMove.value).value.HasNewMessage()
    ensures s.exit.Finished? || s.exit.Expired? || s.exit.Abandoned? || s.exit.Faulted?
    decreases 2 * |events| + r.Pending(), 1
  {
    var c := r.toMove.value;
    var mover := r.Seat(c).value;
    if mover.elapsed >= r.moveTime then Expire(r)
    else if events == [] then Expire(r.Ticked(r.moveTime - mover.elapsed))
    else match events[0]
      case Tick(k) => Relay(r.Ticked(k), events[1..])
      case Arrive(m) => Relay(r.WithSeat(c, Some(mover.(inbox := [m]))), events[1..])
  }

  /** The mover's next message: GameOver and Shutdown end the loop, a move is
      relayed, anything else is dropped. */
  function Dispatch(r: Room, events: seq<Event>): (s: Stage)
    requires Relaying(r) && r.Seat(r.toMove.value).value.HasNewMessage()
    ensures s.exit.Finished? || s.exit.Expired? || s.exit.Abandoned? || s.exit.Faulted?
    decreases 2 * |events| + r.Pending(), 1
  {
    var c := r.toMove.value;
    var mover := r.Seat(c).value;
    var r1 := r.WithSeat(c, Some(mover.Consumed()));
    match mover.inbox[0]
    case GameOver => Stage(r1, Finished)
    case ShutdownMsg(_) => Stage(r1, Abandoned(mover.sessionId, r.Seat(c.Opposite()).value.sessionId))
    case MoveMessage(name, _, _) => Relayed(r, name, events)
    case _ => Relay(r1, events)
  }

  /** A MoveMessage from the mover: its clock pauses, the opponent is sent
      the move with both clocks, the opponent's clock starts and the roles
      swap. */
  function Relayed(r: Room, name: string, events: seq<Event>): (s: Stage)
    requires Relaying(r) && r.Seat(r.toMove.value).value.HasNewMessage()
    ensures s.exit.Finished? || s.exit.Expired? || s.exit.Abandoned? || s.exit.Faulted?
    decreases 2 * |events| + r.Pending(), 0
  {
    var c := r.toMove.value;
    var o := c.Opposite();
    var moved := r.Seat(c).value.Consumed().Paused();
    var q := r.Seat(o).value;
    var r1 := r.WithSeat(c, Some(moved));
    if !q.CanSend() then Stage(r1.WithSeat(o, Some(q.Broken())), Faulted(SendFailed))
    else
      var told := q.Sent(MoveMessage(name, moved.elapsed, q.elapsed)).Started();
      Relay(r1.WithSeat(o, Some(told)).(toMove := Some(o)), events)
  }

  /** TimeOut(true) to the mover, TimeOut(false) to its opponent. */
  function Expire(r: Room): (s: Stage)
    requires Seated(r) && r.toMove.Some?
    ensures s.exit.Expired? || s.exit.Faulted?
  {
    var c := r.toMove.value;
    var p := r.Seat(c).value;
    if !p.CanSend() then Stage(r.WithSeat(c, Some(p.Broken())), Faulted(SendFailed))
    else
      var r1 := r.WithSeat(c, Some(p.Sent(TimeOut(true))));
      var q := r1.Seat(c.Opposite()).value;
      if !q.CanSend() then Stage(r1.WithSeat(c.Opposite(), Some(q.Broken())), Faulted(SendFailed))
      else Stage(r1.WithSeat(c.Opposite(), Some(q.Sent(TimeOut(false)))), Expired)
  }

  /** The "Game Over" removals after the loop. The second one reads
      BlackPlayer.SessionId, which is a null dereference when the first
      removal's cascade has already emptied the Black seat. */
  function Conclude(r: Room): (s: Stage)
    ensures s.exit.Closed? || s.exit.Faulted?
  {
    if r.white.None? then Stage(r, Faulted(NullReference))
    else
      var a := Remove(r, r.white.value.sessionId, true, "Game Over");
      if !a.completed then Stage(a.room, Faulted(SendFailed))
      else if a.room.black.None? then Stage(a.room, Faulted(NullReference))
      else
        var b := Remove(a.room, a.room.black.value.sessionId, true, "Game Over");
        Stage(b.room, if b.completed then Closed else Faulted(SendFailed))
  }

  /** The mover sent Shutdown: its opponent is removed and told why. That
      removal sends the mover, if live, PlayerLeft and cascades it out with a
      Shutdown unless it Acks; the second removal, of the mover, sends it
      nothing more. */
  function AfterShutdown(r: Room, moverId: string, opponentId: string): (s: Stage)
    ensures s.exit.Closed? || s.exit.Faulted?
  {
    var a := Remove(r, opponentId, true, "Opponent connection lost");
    if !a.completed then Stage(a.room, Faulted(SendFailed))
    else
      var b := Remove(a.room, moverId, false, "Unknown");
      Stage(b.room, if b.completed then Closed else Faulted(SendFailed))
  }

  /** The session id of a seat, "0" when it is empty. */
  function IdOrZero(p: Option<Player>): string {
    if p.Some? then p.value.sessionId else "0"
  }

  /** The catch of TryStartNewGame: while the room is still registered,
      remove both players with the error as the reason; if that throws,
      dispose both and drop the room from the registry. */
  function Destroy(r: Room, fault: Fault): Room
  {
    if !r.Registered() then r
    else
      var reason := "Error " + fault.TypeName();
      var a := Remove(r, IdOrZero(r.white), true, reason);
      if !a.completed then Salvage(a.room)
      else
        var b := Remove(a.room, IdOrZero(a.room.black), true, reason);
        if !b.completed then Salvage(b.room) else b.room
  }

  function Salvage(r: Room): Room {
    r.(white := if r.white.Some? then Some(r.white.value.Disposed()) else None,
       black := if r.black.Some? then Some(r.black.value.Disposed()) else None).Unregistered()
  }
}
