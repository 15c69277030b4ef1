/** The MatchRoom class (MatchRoom.cs) and the registry of open rooms
    (GameServer.ActiveRooms). Each method is proved to leave the room, and
    the registry, exactly as the matching function of RoomSpec says, so
    everything room_properties.dfy proves about those functions holds of
    the class. */
module Rooms {
  import opened Wrappers
  import opened WireFormat
  import opened Players
  import opened RoomSpec

  /** GameServer.ActiveRooms, reduced to the ids it holds. */
  class Registry {
    var activeRooms: set<string>

    constructor (rooms: set<string>)
      ensures activeRooms == rooms
    {
      activeRooms := rooms;
    }
  }

  class MatchRoom {
    const roomId: string
    const registry: Registry
    var playerMoveTimeMillis: Int64
    var whitePlayer: Option<Player>
    var blackPlayer: Option<Player>
    var nextToMove: Option<Colour>
    var inGame: bool
    /** The players this room has evicted, in order, as they were left. */
    ghost var departed: seq<Player>

    ghost function Snapshot(): Room
      reads this, registry
    {
      Room(roomId, playerMoveTimeMillis, whitePlayer, blackPlayer, nextToMove, inGame,
           registry.activeRooms, departed)
    }

    constructor (roomId: string, registry: Registry, playerMoveTimeMillis: Int64 := -1)
      ensures this.registry == registry
      ensures Snapshot() == NewRoom(roomId, registry.activeRooms, playerMoveTimeMillis)
    {
      this.roomId := roomId;
      this.registry := registry;
      this.playerMoveTimeMillis := playerMoveTimeMillis;
      whitePlayer := None;
      blackPlayer := None;
      nextToMove := None;
      inGame := false;
      departed := [];
    }

    function SeatOf(c: Colour): Option<Player>
      reads this
    {
      if c == White then whitePlayer else blackPlayer
    }

    /** NextNotToMove. */
    function NextNotToMove(): Option<Colour>
      reads this
    {
      if nextToMove.Some? then Some(nextToMove.value.Opposite()) else None
    }

    predicate IsWhitePlayerLive()
      reads this
    {
      whitePlayer.Some? && whitePlayer.value.live
    }

    predicate IsBlackPlayerLive()
      reads this
    {
      blackPlayer.Some? && blackPlayer.value.live
    }

    predicate RoomFull()
      reads this, registry
      ensures RoomFull() <==> Snapshot().Full()
    {
      IsWhitePlayerLive() && IsBlackPlayerLive()
    }

    method TrySetPlayerMoveTime(millis: Int64) returns (ok: bool)
      modifies this
      ensures (Snapshot(), ok) == SetMoveTime(old(Snapshot()), millis)
    {
      if inGame {
        return false;
      }
      playerMoveTimeMillis := millis;
      return true;
    }

    // -------------------------------------------------------------------------
    // The player in a seat (Player.SendMessage, GetNextMessage, the clock)

    method SetSeat(c: Colour, p: Option<Player>)
      modifies this
      ensures Snapshot() == old(Snapshot()).WithSeat(c, p)
    {
      if c == White {
        whitePlayer := p;
      } else {
        blackPlayer := p;
      }
    }

    /** SendMessage on the player in seat `c`; `sent` is false where it
        throws, and the player then no longer reads as live. */
    method SendTo(c: Colour, m: Msg) returns (sent: bool)
      requires SeatOf(c).Some?
      modifies this
      ensures sent == old(SeatOf(c)).value.CanSend()
      ensures Snapshot() == old(Snapshot()).WithSeat(c, Some(old(SeatOf(c)).value.Attempted(m)))
    {
      var p := SeatOf(c).value;
      if !p.CanSend() {
        SetSeat(c, Some(p.Broken()));
        return false;
      }
      SetSeat(c, Some(p.Sent(m)));
      return true;
    }

    /** GetNextMessage on the player in seat `c`. */
    method Receive(c: Colour) returns (msg: Option<Msg>)
      requires SeatOf(c).Some?
      modifies this
      ensures msg == old(SeatOf(c)).value.NextMessage()
      ensures Snapshot() == old(Snapshot()).WithSeat(c, Some(old(SeatOf(c)).value.Consumed()))
    {
      var p := SeatOf(c).value;
      msg := p.NextMessage();
      SetSeat(c, Some(p.Consumed()));
    }

    /** The seat's player is disposed and the seat emptied. */
    method DisposeSeat(c: Colour)
      requires SeatOf(c).Some?
      modifies this
      ensures Snapshot() == old(Snapshot()).WithSeat(c, None).(departed := old(departed) + [old(SeatOf(c)).value.Disposed()])
    {
      departed := departed + [SeatOf(c).value.Disposed()];
      SetSeat(c, None);
    }

    // -------------------------------------------------------------------------
    // RemovePlayer

    method RemovePlayer(id: string, sendShutdownMsg: bool := true, reason: string := "Unknown") returns (completed: bool)
      modifies this, registry
      ensures Snapshot() == Remove(old(Snapshot()), id, sendShutdownMsg, reason).room
      ensures completed == Remove(old(Snapshot()), id, sendShutdownMsg, reason).completed
      decreases Snapshot().Occupied(), 1
    {
      if blackPlayer.Some? && blackPlayer.value.sessionId == id {
        completed := EvictSeat(Black, sendShutdownMsg, reason);
        if !completed {
          return false;
        }
      } else if whitePlayer.Some? && whitePlayer.value.sessionId == id {
        completed := EvictSeat(White, sendShutdownMsg, reason);
        if !completed {
          return false;
        }
      }
      if whitePlayer.None? && blackPlayer.None? {
        registry.activeRooms := registry.activeRooms - {roomId};
      }
      completed := true;
    }

    /** The branch of RemovePlayer for the seat `c` whose player matched, up
        to the final registry check. */
    method EvictSeat(c: Colour, sendShutdownMsg: bool, reason: string) returns (completed: bool)
      requires SeatOf(c).Some?
      modifies this, registry
      ensures var e := Evict(old(Snapshot()), c, sendShutdownMsg, reason);
        completed == e.completed && (if completed then Snapshot().Settled() else Snapshot()) == e.room
      decreases Snapshot().Occupied(), 0
    {
      if sendShutdownMsg {
        var _ := SendTo(c, ShutdownMsg(reason));
      }
      DisposeSeat(c);
      ghost var vacated := Snapshot();
      assert vacated == Vacate(old(Snapshot()), c, sendShutdownMsg, reason);
      var o := c.Opposite();
      if SeatOf(o).Some? && SeatOf(o).value.live {
        var sent := SendTo(o, PlayerLeft);
        if !sent {
          return false;
        }
        var msg := Receive(o);
        if msg != Some(Ack) {
          completed := RemovePlayer(SeatOf(o).value.sessionId, reason := CascadeReason(msg));
          if !completed {
            return false;
          }
        }
      }
      completed := true;
    }

    // -------------------------------------------------------------------------
    // TryAddPlayer

    method TryAddPlayer(id: string, client: Client, username: string) returns (outcome: Outcome)
      modifies this, registry
      ensures Snapshot() == Add(old(Snapshot()), id, username, client).room
      ensures outcome == Add(old(Snapshot()), id, username, client).outcome
    {
      if inGame {
        return Returned(false);
      }
      if RoomFull() {
        return Returned(false);
      }
      if !client.live {
        // new Player(...) cannot open the stream of a closed client
        outcome := RemoveAndReturn(id, false);
        return;
      }
      var player := Arrival(client, username, id);
      if whitePlayer.None? {
        whitePlayer := Some(player);
        outcome := Greet(White);
        if outcome.Threw? {
          outcome := RemoveAndReturn(id, false);
        }
        return;
      }
      if blackPlayer.None? {
        blackPlayer := Some(player);
        outcome := Greet(Black);
        if outcome.Threw? {
          outcome := RemoveAndReturn(id, false);
        }
        return;
      }
      return Returned(false);
    }

    /** The exchange of PlayerJoined messages once the joiner sits in seat `c`. */
    method Greet(c: Colour) returns (outcome: Outcome)
      requires SeatOf(c).Some?
      modifies this, registry
      ensures Snapshot() == Introduce(old(Snapshot()), c).room
      ensures outcome == Introduce(old(Snapshot()), c).outcome
    {
      var o := c.Opposite();
      if SeatOf(o).None? || !SeatOf(o).value.live {
        return Returned(true);
      }
      var sent := SendTo(o, PlayerJoined(SeatOf(c).value.userName));
      if !sent {
        return Threw;
      }
      var response := Receive(o);
      if response != Some(Ack) {
        if response == Some(Reject) {
          outcome := RemoveAndReturn(SeatOf(c).value.sessionId, false);
          return;
        }
        outcome := RemoveAndReturn(SeatOf(o).value.sessionId, true);
        return;
      }
      sent := SendTo(c, PlayerJoined(SeatOf(o).value.userName));
      if !sent {
        return Threw;
      }
      response := Receive(c);
      if response != Some(Ack) {
        outcome := RemoveAndReturn(SeatOf(c).value.sessionId, false);
        return;
      }
      return Returned(true);
    }

    /** RemovePlayer(id); return value. */
    method RemoveAndReturn(id: string, value: bool) returns (outcome: Outcome)
      modifies this, registry
      ensures Snapshot() == Removing(old(Snapshot()), id, value).room
      ensures outcome == Removing(old(Snapshot()), id, value).outcome
    {
      var completed := RemovePlayer(id);
      outcome := if completed then Returned(value) else Threw;
    }

    // -------------------------------------------------------------------------
    // TryStartNewGame

    /** `events` drives the game loop: what the mover sends and how long it
        takes. */
    method TryStartNewGame(fen: string, events: seq<Event>)
      modifies this, registry
      ensures Snapshot() == StartGame(old(Snapshot()), fen, events)
    {
      if whitePlayer.None? || blackPlayer.None? || !IsWhitePlayerLive() || !IsBlackPlayerLive() {
        return;
      }
      inGame := true;
      var fault := PlayRound(fen, events);
      if fault.Some? {
        DestroyRoom(fault.value);
      }
      inGame := false;
    }

    /** The try body of TryStartNewGame: the exception it raised, if any. */
    method PlayRound(fen: string, events: seq<Event>) returns (fault: Option<Fault>)
      requires Seated(Snapshot())
      modifies this, registry
      ensures Snapshot() == Play(old(Snapshot()), fen, events).room
      ensures fault == FaultOf(Play(old(Snapshot()), fen, events).exit)
    {
      var exit := GetPlayersReady(fen);
      if !exit.Proceed? {
        return FaultOf(exit);
      }
      exit := RelayMoves(events);
      if exit.Abandoned? {
        exit := RemoveAfterShutdown(exit.moverId, exit.opponentId);
      } else if !exit.Faulted? {
        exit := RemoveAfterGameOver();
      }
      return FaultOf(exit);
    }

    method GetPlayersReady(fen: string) returns (exit: Exit)
      requires Seated(Snapshot())
      modifies this, registry
      ensures Stage(Snapshot(), exit) == Handshake(old(Snapshot()), fen)
    {
      var sent := SendTo(White, GetReady(true, playerMoveTimeMillis, fen));
      if !sent {
        return Faulted(SendFailed);
      }
      sent := SendTo(Black, GetReady(false, playerMoveTimeMillis, fen));
      if !sent {
        return Faulted(SendFailed);
      }
      var readyMsg := Receive(White);
      if readyMsg != Some(IsReady) {
        var completed := RemovePlayer(whitePlayer.value.sessionId,
                                      readyMsg.Some? && !readyMsg.value.ShutdownMsg?, "Unresponsive client");
        return if completed then Closed else Faulted(SendFailed);
      }
      readyMsg := Receive(Black);
      if readyMsg != Some(IsReady) {
        var completed := RemovePlayer(blackPlayer.value.sessionId,
                                      readyMsg.Some? && !readyMsg.value.ShutdownMsg?, "Unresponsive client");
        return if completed then Closed else Faulted(SendFailed);
      }
      sent := SendTo(White, GameStart);
      if !sent {
        return Faulted(SendFailed);
      }
      sent := SendTo(Black, GameStart);
      if !sent {
        return Faulted(SendFailed);
      }
      SetSeat(White, Some(whitePlayer.value.Started()));
      nextToMove := Some(White);
      return Proceed;
    }

    /** The game loop: wait for the mover, then relay or end. */
    method RelayMoves(events: seq<Event>) returns (exit: Exit)
      requires Relaying(Snapshot())
      modifies this
      ensures Stage(Snapshot(), exit) == Relay(old(Snapshot()), events)
    {
      var rest := events;
      while true
        invariant Relaying(Snapshot())
        invariant Relay(Snapshot(), rest) == Relay(old(Snapshot()), events)
        decreases 2 * |rest| + Snapshot().Pending()
      {
        var over: Option<Exit>;
        rest, over := AwaitMover(rest);
        if over.Some? {
          return over.value;
        }
        over := HandleMessage(rest);
        if over.Some? {
          return over.value;
        }
      }
    }

    /** The inner loop: until the mover has a message, time passes and the
        events happen; a mover whose clock reaches the budget loses on time
        (`over`). */
    method AwaitMover(events: seq<Event>) returns (rest: seq<Event>, over: Option<Exit>)
      requires Relaying(Snapshot())
      modifies this
      ensures over.Some? ==> Stage(Snapshot(), over.value) == Relay(old(Snapshot()), events)
      ensures over.None? ==> Relaying(Snapshot()) && SeatOf(nextToMove.value).value.HasNewMessage()
      ensures over.None? ==> Relay(Snapshot(), rest) == Relay(old(Snapshot()), events)
      ensures over.None? ==> 2 * |rest| + Snapshot().Pending() <= 2 * |events| + old(Snapshot()).Pending()
    {
      rest := events;
      while !SeatOf(nextToMove.value).value.HasNewMessage()
        invariant Relaying(Snapshot())
        invariant Relay(Snapshot(), rest) == Relay(old(Snapshot()), events)
        invariant 2 * |rest| + Snapshot().Pending() <= 2 * |events| + old(Snapshot()).Pending()
        decreases 2 * |rest| + Snapshot().Pending()
      {
        ghost var before := Snapshot();
        assert Relay(before, rest) == Await(before, rest);
        var elapsed := SeatOf(nextToMove.value).value.elapsed;
        if elapsed >= playerMoveTimeMillis {
          var exit := TimeOutMover();
          return rest, Some(exit);
        }
        if rest == [] {
          Wait(playerMoveTimeMillis - elapsed);
          var exit := TimeOutMover();
          return rest, Some(exit);
        }
        match rest[0] {
          case Tick(k) =>
            Wait(k);
          case Arrive(m) =>
            SetSeat(nextToMove.value, Some(SeatOf(nextToMove.value).value.(inbox := [m])));
        }
        rest := rest[1..];
      }
      return rest, None;
    }

    /** The mover's message: GameOver or Shutdown end the loop (`over`), a
        move is relayed and the roles swap, anything else is dropped. */
    method HandleMessage(events: seq<Event>) returns (over: Option<Exit>)
      requires Relaying(Snapshot()) && SeatOf(nextToMove.value).value.HasNewMessage()
      modifies this
      ensures over.Some? ==> Stage(Snapshot(), over.value) == Relay(old(Snapshot()), events)
      ensures over.None? ==> Relaying(Snapshot()) && Relay(Snapshot(), events) == Relay(old(Snapshot()), events)
      ensures over.None? ==> Snapshot().Pending() < old(Snapshot()).Pending()
    {
      var c := nextToMove.value;
      var moverId := SeatOf(c).value.sessionId;
      assert Relay(Snapshot(), events) == Dispatch(Snapshot(), events);
      var msg := Receive(c);
      match msg.value {
        case GameOver =>
          return Some(Finished);
        case ShutdownMsg(_) =>
          return Some(Abandoned(moverId, SeatOf(c.Opposite()).value.sessionId));
        case MoveMessage(name, _, _) =>
          assert Relay(old(Snapshot()), events) == Relayed(old(Snapshot()), name, events);
          SetSeat(c, Some(SeatOf(c).value.Paused()));
          var sent := SendTo(c.Opposite(), MoveMessage(name, SeatOf(c).value.elapsed, SeatOf(c.Opposite()).value.elapsed));
          if !sent {
            return Some(Faulted(SendFailed));
          }
          SetSeat(c.Opposite(), Some(SeatOf(c.Opposite()).value.Started()));
          nextToMove := Some(c.Opposite());
          return None;
        case _ =>
          return None;
      }
    }

    /** `k` milliseconds pass on both clocks. */
    method Wait(k: nat)
      modifies this
      ensures Snapshot() == old(Snapshot()).Ticked(k)
    {
      if whitePlayer.Some? {
        whitePlayer := Some(whitePlayer.value.Advanced(k));
      }
      if blackPlayer.Some? {
        blackPlayer := Some(blackPlayer.value.Advanced(k));
      }
    }

    method TimeOutMover() returns (exit: Exit)
      requires Seated(Snapshot()) && nextToMove.Some?
      modifies this
      ensures Stage(Snapshot(), exit) == Expire(old(Snapshot()))
    {
      var c := nextToMove.value;
      var sent := SendTo(c, TimeOut(true));
      if !sent {
        return Faulted(SendFailed);
      }
      sent := SendTo(c.Opposite(), TimeOut(false));
      if !sent {
        return Faulted(SendFailed);
      }
      return Expired;
    }

    method RemoveAfterShutdown(moverId: string, opponentId: string) returns (exit: Exit)
      modifies this, registry
      ensures Stage(Snapshot(), exit) == AfterShutdown(old(Snapshot()), moverId, opponentId)
    {
      var completed := RemovePlayer(opponentId, true, "Opponent connection lost");
      if !completed {
        return Faulted(SendFailed);
      }
      completed := RemovePlayer(moverId, false);
      return if completed then Closed else Faulted(SendFailed);
    }

    method RemoveAfterGameOver() returns (exit: Exit)
      modifies this, registry
      ensures Stage(Snapshot(), exit) == Conclude(old(Snapshot()))
    {
      if whitePlayer.None? {
        return Faulted(NullReference);
      }
      var completed := RemovePlayer(whitePlayer.value.sessionId, reason := "Game Over");
      if !completed {
        return Faulted(SendFailed);
      }
      if blackPlayer.None? {
        return Faulted(NullReference);
      }
      completed := RemovePlayer(blackPlayer.value.sessionId, reason := "Game Over");
      return if completed then Closed else Faulted(SendFailed);
    }

    /** The catch of TryStartNewGame. */
    method DestroyRoom(fault: Fault)
      modifies this, registry
      ensures Snapshot() == Destroy(old(Snapshot()), fault)
    {
      if roomId in registry.activeRooms {
        var reason := "Error " + fault.TypeName();
        var completed := RemovePlayer(IdOrZero(whitePlayer), reason := reason);
        if completed {
          completed := RemovePlayer(IdOrZero(blackPlayer), reason := reason);
        }
        if !completed {
          if whitePlayer.Some? {
            whitePlayer := Some(whitePlayer.value.Disposed());
          }
          if blackPlayer.Some? {
            blackPlayer := Some(blackPlayer.value.Disposed());
          }
          registry.activeRooms := registry.activeRooms - {roomId};
        }
      }
    }
  }

  /** The exception an exit stands for, if any. */
  function FaultOf(exit: Exit): Option<Fault> {
    if exit.Faulted? then Some(exit.fault) else None
  }
}
