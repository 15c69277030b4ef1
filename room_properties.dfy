/** What MatchRoom promises, proved about the functions of RoomSpec (and so,
    through the methods' contracts, about the MatchRoom class). */
module RoomProperties {
  import opened Wrappers
  import opened WireFormat
  import opened Players
  import opened RoomSpec

  // ---------------------------------------------------------------------------
  // Vocabulary

  /** A seat after a call is empty or still holds its previous occupant (the
      same session and user name; its mailbox and clock may have moved on). */
  predicate Stays(before: Option<Player>, after: Option<Player>) {
    after.Some? ==> before.Some? && after.value.sessionId == before.value.sessionId
                    && after.value.userName == before.value.userName
  }

  /** What a removal never changes, and how it may change the registry (only
      by dropping this room) and the departed log (only by appending). */
  predicate Framed(r: Room, s: Room) {
    && s.roomId == r.roomId && s.moveTime == r.moveTime && s.toMove == r.toMove && s.inGame == r.inGame
    && s.activeRooms - {r.roomId} == r.activeRooms - {r.roomId} && s.activeRooms <= r.activeRooms
    && r.departed <= s.departed
  }

  /** Both seats are empty or kept their occupants. */
  predicate Kept(r: Room, s: Room) {
    Stays(r.white, s.white) && Stays(r.black, s.black)
  }

  /** The seat RemovePlayer(id) acts on: Black is checked before White. */
  function MatchedSeat(r: Room, id: string): Option<Colour> {
    if r.black.Some? && r.black.value.sessionId == id then Some(Black)
    else if r.white.Some? && r.white.value.sessionId == id then Some(White)
    else None
  }

  lemma FramedTrans(a: Room, b: Room, c: Room)
    requires Framed(a, b) && Framed(b, c)
    ensures Framed(a, c)
  {
    assert c.activeRooms - {a.roomId} == b.activeRooms - {a.roomId};
  }

  // ---------------------------------------------------------------------------
  // RemovePlayer

  /** RemovePlayer only empties seats (never fills or swaps one), keeps the
      room's id, budget and roles, appends to the departed log and touches
      the registry only to drop this room. */
  lemma {:induction false} RemoveFrame(r: Room, id: string, shutdown: bool, reason: string)
    ensures Framed(r, Remove(r, id, shutdown, reason).room)
    ensures Kept(r, Remove(r, id, shutdown, reason).room)
    decreases r.Occupied(), 1
  {
    var c := MatchedSeat(r, id);
    if c.Some? {
      EvictFrame(r, c.value, shutdown, reason);
    }
  }

  lemma {:induction false} EvictFrame(r: Room, c: Colour, shutdown: bool, reason: string)
    requires r.Seat(c).Some?
    ensures Framed(r, Evict(r, c, shutdown, reason).room)
    ensures Kept(r, Evict(r, c, shutdown, reason).room)
    decreases r.Occupied(), 0
  {
    var r1 := Vacate(r, c, shutdown, reason);
    var o := c.Opposite();
    if r1.Live(o) && r1.Seat(o).value.CanSend() {
      var q := r1.Seat(o).value;
      var r2 := r1.WithSeat(o, Some(q.Sent(PlayerLeft).Consumed()));
      var reply := q.NextMessage();
      if reply != Some(Ack) {
        var inner := Remove(r2, q.sessionId, true, CascadeReason(reply));
        RemoveFrame(r2, q.sessionId, true, CascadeReason(reply));
        assert Framed(r, r2);
        FramedTrans(r, r2, inner.room);
        FramedTrans(r, inner.room, inner.room.Settled());
      }
    }
  }

  /** Once RemovePlayer leaves both seats empty, the room is no longer in
      the registry, whether or not the call ended with an exception. */
  lemma {:induction false} RemoveEmptyUnregisters(r: Room, id: string, shutdown: bool, reason: string)
    ensures var s := Remove(r, id, shutdown, reason).room;
      s.white.None? && s.black.None? ==> !s.Registered()
    decreases r.Occupied(), 1
  {
    var c := MatchedSeat(r, id);
    if c.Some? {
      EvictEmptyUnregisters(r, c.value, shutdown, reason);
    }
  }

  lemma {:induction false} EvictEmptyUnregisters(r: Room, c: Colour, shutdown: bool, reason: string)
    requires r.Seat(c).Some?
    ensures var s := Evict(r, c, shutdown, reason).room;
      s.white.None? && s.black.None? ==> !s.Registered()
    decreases r.Occupied(), 0
  {
    var r1 := Vacate(r, c, shutdown, reason);
    var o := c.Opposite();
    if r1.Live(o) && r1.Seat(o).value.CanSend() {
      var q := r1.Seat(o).value;
      var r2 := r1.WithSeat(o, Some(q.Sent(PlayerLeft).Consumed()));
      var reply := q.NextMessage();
      if reply != Some(Ack) {
        RemoveEmptyUnregisters(r2, q.sessionId, true, CascadeReason(reply));
      }
    }
  }

  /** A RemovePlayer whose id matches a seat empties that seat (Black when
      both match), logs its player as departed and so strictly lowers the
      number of occupied seats: the recursion of RemovePlayer ends. */
  lemma RemoveVacates(r: Room, id: string, shutdown: bool, reason: string)
    requires MatchedSeat(r, id).Some?
    ensures var c := MatchedSeat(r, id).value; var out := Remove(r, id, shutdown, reason);
      && out.room.Seat(c).None?
      && out.room.Occupied() < r.Occupied()
      && |out.room.departed| > |r.departed|
      && out.room.departed[|r.departed|] == Vacate(r, c, shutdown, reason).departed[|r.departed|]
  {
    var c := MatchedSeat(r, id).value;
    assert Remove(r, id, shutdown, reason) == Evict(r, c, shutdown, reason);
    EvictVacates(r, c, shutdown, reason);
  }

  lemma EvictVacates(r: Room, c: Colour, shutdown: bool, reason: string)
    requires r.Seat(c).Some?
    ensures var out := Evict(r, c, shutdown, reason);
      && out.room.Seat(c).None?
      && out.room.Occupied() < r.Occupied()
      && |out.room.departed| > |r.departed|
      && out.room.departed[|r.departed|] == Vacate(r, c, shutdown, reason).departed[|r.departed|]
  {
    var r1 := Vacate(r, c, shutdown, reason);
    var out := Evict(r, c, shutdown, reason);
    EvictFrame(r, c, shutdown, reason);
    assert r1.departed <= out.room.departed by {
      var o := c.Opposite();
      if r1.Live(o) && r1.Seat(o).value.CanSend() {
        var q := r1.Seat(o).value;
        var r2 := r1.WithSeat(o, Some(q.Sent(PlayerLeft).Consumed()));
        var reply := q.NextMessage();
        if reply != Some(Ack) {
          RemoveFrame(r2, q.sessionId, true, CascadeReason(reply));
        }
      }
    }
    assert out.room.Seat(c).None? by {
      var o := c.Opposite();
      if r1.Live(o) && r1.Seat(o).value.CanSend() {
        var q := r1.Seat(o).value;
        var r2 := r1.WithSeat(o, Some(q.Sent(PlayerLeft).Consumed()));
        var reply := q.NextMessage();
        if reply != Some(Ack) {
          RemoveFrame(r2, q.sessionId, true, CascadeReason(reply));
          assert Stays(r2.Seat(c), out.room.Seat(c)) by {
            if c == White {} else {}
          }
        }
      }
    }
  }

  /** An id no seat holds changes no seat and no mail; only an empty room
      leaves the registry. */
  lemma RemoveUnmatched(r: Room, id: string, shutdown: bool, reason: string)
    requires MatchedSeat(r, id).None?
    ensures Remove(r, id, shutdown, reason) == Removal(r.Settled(), true)
    ensures r.Settled().white == r.white && r.Settled().black == r.black && r.Settled().departed == r.departed
  {
  }

  /** The player left behind Acks PlayerLeft: it stays, having been sent
      PlayerLeft and having had its reply read. */
  lemma RemoveAcked(r: Room, id: string, shutdown: bool, reason: string)
    requires MatchedSeat(r, id).Some?
    requires var o := MatchedSeat(r, id).value.Opposite();
      r.Live(o) && r.Seat(o).value.CanSend() && r.Seat(o).value.NextMessage() == Some(Ack)
    ensures var c := MatchedSeat(r, id).value; var q := r.Seat(c.Opposite()).value;
      var out := Remove(r, id, shutdown, reason);
      out.completed && out.room.Seat(c).None? && out.room.Seat(c.Opposite()) == Some(q.Sent(PlayerLeft).Consumed())
  {
  }

  /** The player left behind is live but PlayerLeft cannot be sent: the
      exception escapes RemovePlayer after the matched seat was emptied, and
      the player left behind stays seated, no longer live, with nothing more
      sent. */
  lemma RemoveThrows(r: Room, id: string, shutdown: bool, reason: string)
    requires MatchedSeat(r, id).Some?
    requires var o := MatchedSeat(r, id).value.Opposite(); r.Live(o) && !r.Seat(o).value.CanSend()
    ensures var c := MatchedSeat(r, id).value; var out := Remove(r, id, shutdown, reason);
      && !out.completed && out.room.Seat(c).None? && !out.room.Live(c.Opposite())
      && out.room.Seat(c.Opposite()) == Some(r.Seat(c.Opposite()).value.Broken())
      && out.room.activeRooms == r.activeRooms
  {
  }

  /** The player left behind is sent PlayerLeft and answers with anything
      but Ack (or with nothing): it is removed too, told why when the
      connection still takes another message, and the room, now empty,
      leaves the registry. */
  lemma RemoveCascade(r: Room, id: string, shutdown: bool, reason: string)
    requires MatchedSeat(r, id).Some?
    requires var o := MatchedSeat(r, id).value.Opposite();
      r.Live(o) && r.Seat(o).value.CanSend() && r.Seat(o).value.NextMessage() != Some(Ack)
    ensures var q := r.Seat(MatchedSeat(r, id).value.Opposite()).value;
      var out := Remove(r, id, shutdown, reason);
      && out.completed
      && out.room.white.None? && out.room.black.None? && !out.room.Registered()
      && |out.room.departed| == |r.departed| + 2
      && out.room.departed[|r.departed| + 1].sessionId == q.sessionId
      && out.room.departed[|r.departed| + 1].outbox
         == q.outbox + [PlayerLeft]
            + (if q.writesLeft >= 2 then [ShutdownMsg(CascadeReason(q.NextMessage()))] else [])
  {
    var c := MatchedSeat(r, id).value;
    assert Remove(r, id, shutdown, reason) == Evict(r, c, shutdown, reason);
    EvictCascade(r, c, shutdown, reason);
  }

  lemma EvictCascade(r: Room, c: Colour, shutdown: bool, reason: string)
    requires r.Seat(c).Some?
    requires var o := c.Opposite();
      r.Live(o) && r.Seat(o).value.CanSend() && r.Seat(o).value.NextMessage() != Some(Ack)
    ensures var q := r.Seat(c.Opposite()).value;
      var out := Evict(r, c, shutdown, reason);
      && out.completed
      && out.room.white.None? && out.room.black.None? && !out.room.Registered()
      && |out.room.departed| == |r.departed| + 2
      && out.room.departed[|r.departed| + 1].sessionId == q.sessionId
      && out.room.departed[|r.departed| + 1].outbox
         == q.outbox + [PlayerLeft]
            + (if q.writesLeft >= 2 then [ShutdownMsg(CascadeReason(q.NextMessage()))] else [])
  {
    var o := c.Opposite();
    var r1 := Vacate(r, c, shutdown, reason);
    var q := r1.Seat(o).value;
    var why := CascadeReason(q.NextMessage());
    var q1 := q.Sent(PlayerLeft).Consumed();
    var r2 := r1.WithSeat(o, Some(q1));
    assert r2.Seat(c).None? && r2.Seat(o) == Some(q1);
    assert MatchedSeat(r2, q.sessionId) == Some(o);
    assert Remove(r2, q.sessionId, true, why) == Evict(r2, o, true, why);
    var r3 := Vacate(r2, o, true, why);
    assert r3.white.None? && r3.black.None?;
    assert !r3.Live(c);
    assert Evict(r2, o, true, why) == Removal(r3.Settled(), true);
    var told := if q1.CanSend() then q1.Sent(ShutdownMsg(why)) else q1;
    assert r3.departed == r1.departed + [told.Disposed()];
    assert told.outbox == q.outbox + [PlayerLeft]
      + (if q.writesLeft >= 2 then [ShutdownMsg(why)] else []);
  }

  lemma KeptTrans(a: Room, b: Room, c: Room)
    requires Kept(a, b) && Kept(b, c)
    ensures Kept(a, c)
  {
  }

  // ---------------------------------------------------------------------------
  // TryAddPlayer

  /** The seat a joiner is offered: White if it is empty, else Black if it is. */
  function FreeSeat(r: Room): Option<Colour> {
    if r.white.None? then Some(White) else if r.black.None? then Some(Black) else None
  }

  /** After TryAddPlayer the seat `c` is empty, still holds its occupant, or
      (only if it was the free seat) holds the joiner. */
  predicate JoinedSeat(r: Room, s: Room, c: Colour, id: string, userName: string) {
    s.Seat(c).Some? ==>
      || (r.Seat(c).Some? && s.Seat(c).value.sessionId == r.Seat(c).value.sessionId
          && s.Seat(c).value.userName == r.Seat(c).value.userName)
      || (FreeSeat(r) == Some(c) && s.Seat(c).value.sessionId == id && s.Seat(c).value.userName == userName)
  }

  lemma {:induction false} IntroduceFrame(r: Room, c: Colour)
    requires r.Seat(c).Some?
    ensures Framed(r, Introduce(r, c).room) && Kept(r, Introduce(r, c).room)
  {
    var o := c.Opposite();
    if r.Live(o) && r.Seat(o).value.CanSend() {
      var p := r.Seat(c).value;
      var q := r.Seat(o).value;
      var r1 := r.WithSeat(o, Some(q.Sent(PlayerJoined(p.userName)).Consumed()));
      var response := q.NextMessage();
      if response == Some(Reject) {
        RemoveFrame(r1, p.sessionId, true, "Unknown");
        FramedTrans(r, r1, Remove(r1, p.sessionId, true, "Unknown").room);
      } else if response != Some(Ack) {
        RemoveFrame(r1, q.sessionId, true, "Unknown");
        FramedTrans(r, r1, Remove(r1, q.sessionId, true, "Unknown").room);
      } else if p.CanSend() {
        var r2 := r1.WithSeat(c, Some(p.Sent(PlayerJoined(q.userName)).Consumed()));
        RemoveFrame(r2, p.sessionId, true, "Unknown");
        FramedTrans(r, r2, Remove(r2, p.sessionId, true, "Unknown").room);
      }
    }
  }

  /** TryAddPlayer never changes the room's id, budget, roles or InGame,
      touches the registry only to drop this room, and never displaces a
      player: each seat ends empty, with its occupant, or, for the free seat
      only, with the joiner. So a room never holds more than two players. */
  lemma AddFrame(r: Room, id: string, userName: string, client: Client)
    ensures var s := Add(r, id, userName, client).room;
      Framed(r, s) && JoinedSeat(r, s, White, id, userName) && JoinedSeat(r, s, Black, id, userName)
  {
    if r.inGame || r.Full() {
    } else if !client.live {
      RemoveFrame(r, id, true, "Unknown");
    } else if FreeSeat(r).Some? {
      var c := FreeSeat(r).value;
      var p := Arrival(client, userName, id);
      var r0 := r.WithSeat(c, Some(p));
      var t := Introduce(r0, c);
      IntroduceFrame(r0, c);
      var s := Add(r, id, userName, client).room;
      if t.outcome.Threw? {
        RemoveFrame(t.room, id, true, "Unknown");
        FramedTrans(r0, t.room, s);
        KeptTrans(r0, t.room, s);
      }
      assert Framed(r0, s) && Kept(r0, s);
      assert Stays(r0.Seat(c), s.Seat(c)) && Stays(r0.Seat(c.Opposite()), s.Seat(c.Opposite()));
      if c == White {
        assert JoinedSeat(r, s, White, id, userName);
      } else {
        assert JoinedSeat(r, s, Black, id, userName);
      }
    }
  }

  /** Refused outright while in a game or when both seats hold live players. */
  lemma AddRefused(r: Room, id: string, userName: string, client: Client)
    requires r.inGame || r.Full()
    ensures Add(r, id, userName, client) == Attempt(r, Returned(false))
  {
  }

  /** A connected joiner finding both seats taken (one by a player that is no
      longer live) is refused and nothing changes. */
  lemma AddBothTaken(r: Room, id: string, userName: string, client: Client)
    requires !r.inGame && client.live && r.white.Some? && r.black.Some?
    ensures Add(r, id, userName, client) == Attempt(r, Returned(false))
  {
  }

  /** The joiner takes the free seat (White first) and, with no live player
      in the other seat, the call returns true without sending anything. */
  lemma AddSeated(r: Room, id: string, userName: string, client: Client)
    requires !r.inGame && !r.Full() && client.live && FreeSeat(r).Some?
    requires !r.Live(FreeSeat(r).value.Opposite())
    ensures Add(r, id, userName, client)
      == Attempt(r.WithSeat(FreeSeat(r).value, Some(Arrival(client, userName, id))), Returned(true))
  {
  }

  /** The precondition of the join-outcome lemmas: a connected joiner, a free
      seat, and a live occupant in the other seat that PlayerJoined reaches. */
  predicate Meeting(r: Room, id: string, client: Client) {
    && !r.inGame && !r.Full() && client.live && FreeSeat(r).Some?
    && r.Live(FreeSeat(r).value.Opposite())
    && r.Seat(FreeSeat(r).value.Opposite()).value.CanSend()
    && r.Seat(FreeSeat(r).value.Opposite()).value.sessionId != id
  }

  /** The occupant answers Reject: the joiner is removed and the call
      returns false. */
  lemma AddRejected(r: Room, id: string, userName: string, client: Client)
    requires Meeting(r, id, client)
    requires r.Seat(FreeSeat(r).value.Opposite()).value.NextMessage() == Some(Reject)
    ensures var a := Add(r, id, userName, client);
      a.outcome == Returned(false) && a.room.Seat(FreeSeat(r).value).None?
  {
    var c := FreeSeat(r).value;
    var o := c.Opposite();
    var p := Arrival(client, userName, id);
    var q := r.Seat(o).value;
    var r1 := r.WithSeat(c, Some(p)).WithSeat(o, Some(q.Sent(PlayerJoined(userName)).Consumed()));
    assert Introduce(r.WithSeat(c, Some(p)), c) == Removing(r1, id, false);
    assert MatchedSeat(r1, id) == Some(c);
    RemoveVacates(r1, id, true, "Unknown");
    RemoveFrame(r1, id, true, "Unknown");
    JoinerGone(Remove(r1, id, true, "Unknown").room, r1, c, id);
  }

  /** With the joiner's seat emptied and the occupant's id not the joiner's,
      the catch's RemovePlayer of the joiner finds nothing and returns. */
  lemma JoinerGone(s: Room, r1: Room, c: Colour, id: string)
    requires s.Seat(c).None? && Kept(r1, s)
    requires r1.Seat(c.Opposite()).Some? ==> r1.Seat(c.Opposite()).value.sessionId != id
    ensures Removing(s, id, false) == Attempt(s.Settled(), Returned(false))
    ensures s.Settled().Seat(c).None?
  {
    assert Stays(r1.Seat(c.Opposite()), s.Seat(c.Opposite()));
    assert MatchedSeat(s, id).None?;
  }

  /** The occupant answers neither Ack nor Reject: the occupant is removed and
      the call returns true, provided PlayerLeft reaches the joiner. */
  lemma AddOccupantRemoved(r: Room, id: string, userName: string, client: Client)
    requires Meeting(r, id, client) && client.writesLeft > 0
    requires var reply := r.Seat(FreeSeat(r).value.Opposite()).value.NextMessage();
      reply != Some(Ack) && reply != Some(Reject)
    ensures var a := Add(r, id, userName, client);
      a.outcome == Returned(true) && a.room.Seat(FreeSeat(r).value.Opposite()).None?
  {
    var c := FreeSeat(r).value;
    var o := c.Opposite();
    var p := Arrival(client, userName, id);
    var q := r.Seat(o).value;
    var r1 := r.WithSeat(c, Some(p)).WithSeat(o, Some(q.Sent(PlayerJoined(userName)).Consumed()));
    assert Introduce(r.WithSeat(c, Some(p)), c) == Removing(r1, q.sessionId, true);
    assert MatchedSeat(r1, q.sessionId) == Some(o);
    RemoveVacates(r1, q.sessionId, true, "Unknown");
    OccupantEvictionCompletes(r1, o, p);
  }

  /** Evicting the occupant of seat `o` when the joiner, alone in the other
      seat, can be sent PlayerLeft: no exception escapes. */
  lemma OccupantEvictionCompletes(r1: Room, o: Colour, p: Player)
    requires r1.Seat(o).Some? && r1.Seat(o.Opposite()) == Some(p) && p.CanSend()
    requires MatchedSeat(r1, r1.Seat(o).value.sessionId) == Some(o)
    ensures Remove(r1, r1.Seat(o).value.sessionId, true, "Unknown").completed
  {
    var c := o.Opposite();
    var id := r1.Seat(o).value.sessionId;
    assert Remove(r1, id, true, "Unknown") == Evict(r1, o, true, "Unknown");
    var v := Vacate(r1, o, true, "Unknown");
    var r2 := v.WithSeat(c, Some(p.Sent(PlayerLeft).Consumed()));
    var reply := p.NextMessage();
    if reply != Some(Ack) {
      assert MatchedSeat(r2, p.sessionId) == Some(c);
      assert Remove(r2, p.sessionId, true, CascadeReason(reply)) == Evict(r2, c, true, CascadeReason(reply));
      assert !Vacate(r2, c, true, CascadeReason(reply)).Live(o);
    }
  }

  /** PlayerJoined cannot be sent to the live occupant: the catch's
      RemovePlayer of the joiner empties the joiner's seat, telling it
      "Unknown" when it can, and finds the occupant no longer live, so no
      PlayerLeft goes out and the call returns false. */
  lemma AddOccupantUnreachable(r: Room, id: string, userName: string, client: Client)
    requires !r.inGame && !r.Full() && client.live && FreeSeat(r).Some?
    requires var o := FreeSeat(r).value.Opposite();
      r.Live(o) && !r.Seat(o).value.CanSend() && r.Seat(o).value.sessionId != id
    ensures var c := FreeSeat(r).value; var q := r.Seat(c.Opposite()).value;
      var a := Add(r, id, userName, client);
      && a.outcome == Returned(false) && a.room.Seat(c).None?
      && a.room.Seat(c.Opposite()) == Some(q.Broken())
      && |a.room.departed| == |r.departed| + 1 && a.room.departed[|r.departed|].sessionId == id
      && a.room.departed[|r.departed|].outbox
         == (if client.writesLeft > 0 then [ShutdownMsg("Unknown")] else [])
  {
    var c := FreeSeat(r).value;
    var o := c.Opposite();
    var p := Arrival(client, userName, id);
    var q := r.Seat(o).value;
    var t := r.WithSeat(c, Some(p)).WithSeat(o, Some(q.Broken()));
    assert Introduce(r.WithSeat(c, Some(p)), c) == Attempt(t, Threw);
    assert MatchedSeat(t, id) == Some(c);
    assert Remove(t, id, true, "Unknown") == Evict(t, c, true, "Unknown");
    var t1 := Vacate(t, c, true, "Unknown");
    assert !t1.Live(o) && t1.Seat(o) == Some(q.Broken());
  }

  /** The occupant answers neither Ack nor Reject, and the joiner, told
      PlayerLeft, does not answer at all: both are gone and the room has left
      the registry, yet TryAddPlayer returns true. */
  lemma AddTrueLeavesRoomEmpty(r: Room, id: string, userName: string, client: Client)
    requires Meeting(r, id, client) && client.writesLeft > 0 && client.script == []
    requires var reply := r.Seat(FreeSeat(r).value.Opposite()).value.NextMessage();
      reply != Some(Ack) && reply != Some(Reject)
    ensures var a := Add(r, id, userName, client);
      a.outcome == Returned(true) && a.room.white.None? && a.room.black.None? && !a.room.Registered()
  {
    var c := FreeSeat(r).value;
    var o := c.Opposite();
    var p := Arrival(client, userName, id);
    var q := r.Seat(o).value;
    var r1 := r.WithSeat(c, Some(p)).WithSeat(o, Some(q.Sent(PlayerJoined(userName)).Consumed()));
    assert Introduce(r.WithSeat(c, Some(p)), c) == Removing(r1, q.sessionId, true);
    assert MatchedSeat(r1, q.sessionId) == Some(o);
    RemoveCascade(r1, q.sessionId, true, "Unknown");
  }

  /** The occupant Acks but the joiner does not Ack the introduction to the
      occupant: the joiner is removed and the call returns false. */
  lemma AddJoinerSilent(r: Room, id: string, userName: string, client: Client)
    requires Meeting(r, id, client) && client.writesLeft > 0
    requires r.Seat(FreeSeat(r).value.Opposite()).value.NextMessage() == Some(Ack)
    requires client.script == [] || client.script[0] != Ack
    ensures var a := Add(r, id, userName, client);
      a.outcome == Returned(false) && a.room.Seat(FreeSeat(r).value).None?
  {
    var c := FreeSeat(r).value;
    var o := c.Opposite();
    var p := Arrival(client, userName, id);
    var q := r.Seat(o).value;
    var r1 := r.WithSeat(c, Some(p)).WithSeat(o, Some(q.Sent(PlayerJoined(userName)).Consumed()));
    var r2 := r1.WithSeat(c, Some(p.Sent(PlayerJoined(q.userName)).Consumed()));
    assert Introduce(r.WithSeat(c, Some(p)), c) == Removing(r2, id, false);
    assert MatchedSeat(r2, id) == Some(c);
    RemoveVacates(r2, id, true, "Unknown");
    RemoveFrame(r2, id, true, "Unknown");
    JoinerGone(Remove(r2, id, true, "Unknown").room, r2, c, id);
  }

  /** Both Ack: the joiner is seated, each player has been told the other's
      user name and had its Ack read, and the call returns true. */
  lemma AddWelcomed(r: Room, id: string, userName: string, client: Client)
    requires Meeting(r, id, client) && client.writesLeft > 0
    requires r.Seat(FreeSeat(r).value.Opposite()).value.NextMessage() == Some(Ack)
    requires client.script != [] && client.script[0] == Ack
    ensures var c := FreeSeat(r).value; var q := r.Seat(c.Opposite()).value;
      var p := Arrival(client, userName, id);
      Add(r, id, userName, client) == Attempt(
        r.WithSeat(c.Opposite(), Some(q.Sent(PlayerJoined(userName)).Consumed()))
         .WithSeat(c, Some(p.Sent(PlayerJoined(q.userName)).Consumed())),
        Returned(true))
  {
  }

  // ---------------------------------------------------------------------------
  // TrySetPlayerMoveTime

  /** The budget changes exactly when no game runs, and nothing else changes. */
  lemma SetMoveTimeBetweenGames(r: Room, millis: Int64)
    ensures var s := SetMoveTime(r, millis);
      && (s.1 <==> !r.inGame)
      && s.0.moveTime == (if s.1 then millis else r.moveTime)
      && s.0.(moveTime := r.moveTime) == r
  {
  }

  // ---------------------------------------------------------------------------
  // TryStartNewGame: what no stage changes

  /** The room's id and budget stay; the registry only loses this room; the
      departed log only grows. */
  predicate Anchored(r: Room, s: Room) {
    && s.roomId == r.roomId && s.moveTime == r.moveTime
    && s.activeRooms - {r.roomId} == r.activeRooms - {r.roomId} && s.activeRooms <= r.activeRooms
    && r.departed <= s.departed
  }

  lemma AnchoredTrans(a: Room, b: Room, c: Room)
    requires Anchored(a, b) && Anchored(b, c)
    ensures Anchored(a, c)
  {
    assert c.activeRooms - {a.roomId} == b.activeRooms - {a.roomId};
  }

  /** The game loop touches only the two seated players' mail and clocks and
      who is to move: both stay seated, with the same session and name. */
  predicate SameParties(r: Room, s: Room) {
    && Seated(r) && Seated(s)
    && s.roomId == r.roomId && s.moveTime == r.moveTime && s.inGame == r.inGame
    && s.activeRooms == r.activeRooms && s.departed == r.departed
    && s.white.value.sessionId == r.white.value.sessionId && s.white.value.userName == r.white.value.userName
    && s.black.value.sessionId == r.black.value.sessionId && s.black.value.userName == r.black.value.userName
  }

  /** A player is to move and its opponent's clock is stopped. */
  predicate OneClock(r: Room) {
    Seated(r) && r.toMove.Some? && !r.Seat(r.toMove.value.Opposite()).value.clockRunning
  }

  /** What the game loop keeps: the same two players; once the opponent's
      clock is stopped it stays stopped, so only the mover's clock runs (and
      it does, unless a send failed); a Shutdown is reported with the ids of
      the mover and its opponent. */
  predicate RelayKept(r: Room, g: Stage) {
    && SameParties(r, g.room) && (OneClock(r) ==> OneClock(g.room))
    && (!g.exit.Faulted? ==> Relaying(g.room))
    && (g.exit.Abandoned? ==>
          && g.exit.moverId == g.room.Seat(g.room.toMove.value).value.sessionId
          && g.exit.opponentId == g.room.Seat(g.room.toMove.value.Opposite()).value.sessionId)
  }

  lemma {:induction false} RelayKeeps(r: Room, events: seq<Event>)
    requires Relaying(r)
    ensures RelayKept(r, Relay(r, events))
    decreases 2 * |events| + r.Pending(), 2
  {
    if r.Seat(r.toMove.value).value.HasNewMessage() {
      DispatchKeeps(r, events);
    } else {
      AwaitKeeps(r, events);
    }
  }

  lemma {:induction false} AwaitKeeps(r: Room, events: seq<Event>)
    requires Relaying(r) && !r.Seat(r.toMove.value).value.HasNewMessage()
    ensures RelayKept(r, Await(r, events))
    decreases 2 * |events| + r.Pending(), 1
  {
    var c := r.toMove.value;
    var mover := r.Seat(c).value;
    if mover.elapsed >= r.moveTime {
      ExpireKeeps(r);
    } else if events == [] {
      ExpireKeeps(r.Ticked(r.moveTime - mover.elapsed));
    } else {
      match events[0]
      case Tick(k) =>
        var r1 := r.Ticked(k);
        assert r1.Pending() == r.Pending();
        RelayKeeps(r1, events[1..]);
      case Arrive(m) =>
        var r1 := r.WithSeat(c, Some(mover.(inbox := [m])));
        assert r1.Pending() == r.Pending() + 1;
        RelayKeeps(r1, events[1..]);
    }
  }

  lemma ExpireKeeps(r: Room)
    requires Relaying(r)
    ensures RelayKept(r, Expire(r))
  {
  }

  lemma {:induction false} DispatchKeeps(r: Room, events: seq<Event>)
    requires Relaying(r) && r.Seat(r.toMove.value).value.HasNewMessage()
    ensures RelayKept(r, Dispatch(r, events))
    decreases 2 * |events| + r.Pending(), 1
  {
    var c := r.toMove.value;
    var mover := r.Seat(c).value;
    var r1 := r.WithSeat(c, Some(mover.Consumed()));
    match mover.inbox[0]
    case GameOver =>
    case ShutdownMsg(_) =>
    case MoveMessage(name, _, _) =>
      RelayedKeeps(r, name, events);
    case _ =>
      assert r1.Pending() < r.Pending();
      RelayKeeps(r1, events);
  }

  lemma {:induction false} RelayedKeeps(r: Room, name: string, events: seq<Event>)
    requires Relaying(r) && r.Seat(r.toMove.value).value.HasNewMessage()
    ensures RelayKept(r, Relayed(r, name, events))
    decreases 2 * |events| + r.Pending(), 0
  {
    var c := r.toMove.value;
    var o := c.Opposite();
    var moved := r.Seat(c).value.Consumed().Paused();
    var q := r.Seat(o).value;
    var r1 := r.WithSeat(c, Some(moved));
    if q.CanSend() {
      var told := q.Sent(MoveMessage(name, moved.elapsed, q.elapsed)).Started();
      var r2 := r1.WithSeat(o, Some(told)).(toMove := Some(o));
      assert r2.Pending() < r.Pending();
      assert Relaying(r2) && OneClock(r2) && SameParties(r, r2);
      RelayKeeps(r2, events);
    }
  }

  // ---------------------------------------------------------------------------
  // TryStartNewGame: the game loop

  /** A game that ends on time ends with the mover out of time: nothing
      pending from it, its clock at or past the budget, TimeOut(true) the
      last message it was sent and TimeOut(false) the last its opponent was
      sent. */
  predicate LostOnTime(g: Stage) {
    g.exit.Expired? ==>
      && Seated(g.room) && g.room.toMove.Some?
      && var m := g.room.Seat(g.room.toMove.value).value;
         var q := g.room.Seat(g.room.toMove.value.Opposite()).value;
         && m.inbox == [] && m.elapsed >= g.room.moveTime
         && m.outbox != [] && m.outbox[|m.outbox| - 1] == TimeOut(true)
         && q.outbox != [] && q.outbox[|q.outbox| - 1] == TimeOut(false)
  }

  lemma ExpireTimedOut(r: Room)
    requires Seated(r) && r.toMove.Some?
    requires r.Seat(r.toMove.value).value.inbox == [] && r.Seat(r.toMove.value).value.elapsed >= r.moveTime
    ensures LostOnTime(Expire(r))
  {
  }

  lemma {:induction false} RelayExpires(r: Room, events: seq<Event>)
    requires Relaying(r)
    ensures LostOnTime(Relay(r, events))
    decreases 2 * |events| + r.Pending(), 2
  {
    if r.Seat(r.toMove.value).value.HasNewMessage() {
      DispatchExpires(r, events);
    } else {
      AwaitExpires(r, events);
    }
  }

  lemma {:induction false} AwaitExpires(r: Room, events: seq<Event>)
    requires Relaying(r) && !r.Seat(r.toMove.value).value.HasNewMessage()
    ensures LostOnTime(Await(r, events))
    decreases 2 * |events| + r.Pending(), 1
  {
    var c := r.toMove.value;
    var mover := r.Seat(c).value;
    if mover.elapsed >= r.moveTime {
      assert Await(r, events) == Expire(r);
      ExpireTimedOut(r);
    } else if events == [] {
      var r1 := r.Ticked(r.moveTime - mover.elapsed);
      assert r1.Seat(c).value.elapsed == r.moveTime;
      assert Await(r, events) == Expire(r1);
      ExpireTimedOut(r1);
    } else {
      match events[0]
      case Tick(k) =>
        var r1 := r.Ticked(k);
        assert r1.Pending() == r.Pending();
        RelayExpires(r1, events[1..]);
      case Arrive(m) =>
        var r1 := r.WithSeat(c, Some(mover.(inbox := [m])));
        assert r1.Pending() == r.Pending() + 1;
        RelayExpires(r1, events[1..]);
    }
  }

  lemma {:induction false} DispatchExpires(r: Room, events: seq<Event>)
    requires Relaying(r) && r.Seat(r.toMove.value).value.HasNewMessage()
    ensures LostOnTime(Dispatch(r, events))
    decreases 2 * |events| + r.Pending(), 1
  {
    var c := r.toMove.value;
    var mover := r.Seat(c).value;
    var r1 := r.WithSeat(c, Some(mover.Consumed()));
    match mover.inbox[0]
    case GameOver =>
    case ShutdownMsg(_) =>
    case MoveMessage(name, _, _) =>
      RelayedExpires(r, name, events);
    case _ =>
      assert r1.Pending() < r.Pending();
      RelayExpires(r1, events);
  }

  lemma {:induction false} RelayedExpires(r: Room, name: string, events: seq<Event>)
    requires Relaying(r) && r.Seat(r.toMove.value).value.HasNewMessage()
    ensures LostOnTime(Relayed(r, name, events))
    decreases 2 * |events| + r.Pending(), 0
  {
    var c := r.toMove.value;
    var o := c.Opposite();
    var moved := r.Seat(c).value.Consumed().Paused();
    var q := r.Seat(o).value;
    var r1 := r.WithSeat(c, Some(moved));
    if q.CanSend() {
      var told := q.Sent(MoveMessage(name, moved.elapsed, q.elapsed)).Started();
      var r2 := r1.WithSeat(o, Some(told)).(toMove := Some(o));
      assert r2.Pending() < r.Pending();
      RelayExpires(r2, events);
    }
  }

  /** With nothing pending from the mover and its clock at or past the budget
      (always so under the default budget of -1), the game ends on time
      whatever happens next. */
  lemma RelayOutOfTime(r: Room, events: seq<Event>)
    requires Relaying(r) && r.Seat(r.toMove.value).value.inbox == []
    requires r.Seat(r.toMove.value).value.elapsed >= r.moveTime
    ensures Relay(r, events) == Expire(r)
  {
  }

  /** A MoveMessage from the mover, with the opponent reachable: the opponent
      is sent the move with the mover's and its own elapsed time, the mover's
      clock stops, the opponent's starts, and the opponent is to move. */
  lemma RelayMove(r: Room, events: seq<Event>)
    requires Relaying(r) && r.Seat(r.toMove.value).value.inbox != []
    requires r.Seat(r.toMove.value).value.inbox[0].MoveMessage?
    requires r.Seat(r.toMove.value.Opposite()).value.CanSend()
    ensures var c := r.toMove.value; var m := r.Seat(c).value; var q := r.Seat(c.Opposite()).value;
      var told := MoveMessage(m.inbox[0].moveName, m.elapsed, q.elapsed);
      Relay(r, events) == Relay(
        r.WithSeat(c, Some(m.(inbox := m.inbox[1..], clockRunning := false)))
         .WithSeat(c.Opposite(), Some(q.(outbox := q.outbox + [told], writesLeft := q.writesLeft - 1, clockRunning := true)))
         .(toMove := Some(c.Opposite())),
        events)
  {
    var c := r.toMove.value;
    var m := r.Seat(c).value;
    assert Relay(r, events) == Dispatch(r, events);
    assert Dispatch(r, events) == Relayed(r, m.inbox[0].moveName, events);
  }

  /** The mover's GameOver ends the loop with the mover's message read and no
      message sent; its Shutdown does the same, naming mover and opponent. */
  lemma RelayEnds(r: Room, events: seq<Event>)
    requires Relaying(r) && r.Seat(r.toMove.value).value.inbox != []
    requires r.Seat(r.toMove.value).value.inbox[0].GameOver? || r.Seat(r.toMove.value).value.inbox[0].ShutdownMsg?
    ensures var c := r.toMove.value; var m := r.Seat(c).value;
      && Relay(r, events).room == r.WithSeat(c, Some(m.(inbox := m.inbox[1..])))
      && Relay(r, events).exit
         == (if m.inbox[0].GameOver? then Finished else Abandoned(m.sessionId, r.Seat(c.Opposite()).value.sessionId))
  {
  }

  /** Any other message from the mover is read and dropped. */
  lemma RelayDrops(r: Room, events: seq<Event>)
    requires Relaying(r) && r.Seat(r.toMove.value).value.inbox != []
    requires var m := r.Seat(r.toMove.value).value.inbox[0]; !m.GameOver? && !m.ShutdownMsg? && !m.MoveMessage?
    ensures var c := r.toMove.value; var m := r.Seat(c).value;
      Relay(r, events) == Relay(r.WithSeat(c, Some(m.(inbox := m.inbox[1..]))), events)
  {
  }

  // ---------------------------------------------------------------------------
  // TryStartNewGame: the handshake

  /** The handshake reaches the game loop exactly when both players can be
      sent GetReady and GameStart and both answer IsReady; it then leaves
      both told, both replies read, White's clock started and White to move. */
  lemma HandshakeReady(r: Room, fen: string)
    requires Seated(r)
    ensures var w := r.white.value; var b := r.black.value; var h := Handshake(r, fen);
      && (h.exit.Proceed? <==>
            w.live && w.writesLeft >= 2 && b.live && b.writesLeft >= 2
            && w.NextMessage() == Some(IsReady) && b.NextMessage() == Some(IsReady))
      && (h.exit.Proceed? ==> h.room == r.(
            white := Some(w.(outbox := w.outbox + [GetReady(true, r.moveTime, fen), GameStart],
                             writesLeft := w.writesLeft - 2, inbox := w.inbox[1..], clockRunning := true)),
            black := Some(b.(outbox := b.outbox + [GetReady(false, r.moveTime, fen), GameStart],
                             writesLeft := b.writesLeft - 2, inbox := b.inbox[1..])),
            toMove := Some(White)))
  {
    var w := r.white.value;
    var b := r.black.value;
    var h := Handshake(r, fen);
    if h.exit.Proceed? {
      assert w.outbox + [GetReady(true, r.moveTime, fen)] + [GameStart]
          == w.outbox + [GetReady(true, r.moveTime, fen), GameStart];
      assert b.outbox + [GetReady(false, r.moveTime, fen)] + [GameStart]
          == b.outbox + [GetReady(false, r.moveTime, fen), GameStart];
    }
  }

  /** White, told GetReady, answers anything but IsReady: it is removed, sent
      Shutdown("Unresponsive client") only if it answered with something
      other than Shutdown, and the game does not start. */
  lemma HandshakeWhiteUnready(r: Room, fen: string)
    requires Seated(r) && r.white.value.CanSend() && r.black.value.CanSend()
    requires r.white.value.NextMessage() != Some(IsReady)
    requires r.white.value.sessionId != r.black.value.sessionId
    ensures var w := r.white.value; var reply := w.NextMessage(); var h := Handshake(r, fen);
      && !h.exit.Proceed? && h.room.white.None? && |h.room.departed| > |r.departed|
      && h.room.departed[|r.departed|].sessionId == w.sessionId
      && h.room.departed[|r.departed|].outbox
         == w.outbox + [GetReady(true, r.moveTime, fen)]
            + (if reply.Some? && !reply.value.ShutdownMsg? && w.writesLeft >= 2
               then [ShutdownMsg("Unresponsive client")] else [])
  {
    var w := r.white.value;
    var b := r.black.value;
    var w1 := w.Sent(GetReady(true, r.moveTime, fen));
    var b1 := b.Sent(GetReady(false, r.moveTime, fen));
    var r1 := r.(white := Some(w1.Consumed()), black := Some(b1));
    var reply := w1.NextMessage();
    assert Handshake(r, fen) == Unready(r1, w.sessionId, reply);
    assert MatchedSeat(r1, w.sessionId) == Some(White);
    RemoveVacates(r1, w.sessionId, reply.Some? && !reply.value.ShutdownMsg?, "Unresponsive client");
  }

  /** The same for Black, which is matched first, so no distinct ids are needed. */
  lemma HandshakeBlackUnready(r: Room, fen: string)
    requires Seated(r) && r.white.value.CanSend() && r.black.value.CanSend()
    requires r.white.value.NextMessage() == Some(IsReady) && r.black.value.NextMessage() != Some(IsReady)
    ensures var b := r.black.value; var reply := b.NextMessage(); var h := Handshake(r, fen);
      && !h.exit.Proceed? && h.room.black.None? && |h.room.departed| > |r.departed|
      && h.room.departed[|r.departed|].sessionId == b.sessionId
      && h.room.departed[|r.departed|].outbox
         == b.outbox + [GetReady(false, r.moveTime, fen)]
            + (if reply.Some? && !reply.value.ShutdownMsg? && b.writesLeft >= 2
               then [ShutdownMsg("Unresponsive client")] else [])
  {
    var w := r.white.value;
    var b := r.black.value;
    var w1 := w.Sent(GetReady(true, r.moveTime, fen));
    var b1 := b.Sent(GetReady(false, r.moveTime, fen));
    var r2 := r.(white := Some(w1.Consumed()), black := Some(b1.Consumed()));
    var reply := b1.NextMessage();
    assert Handshake(r, fen) == Unready(r2, b.sessionId, reply);
    assert MatchedSeat(r2, b.sessionId) == Some(Black);
    RemoveVacates(r2, b.sessionId, reply.Some? && !reply.value.ShutdownMsg?, "Unresponsive client");
  }

  // ---------------------------------------------------------------------------
  // TryStartNewGame: the end of the game and the catch

  /** After GameOver or a timeout: removing White cascades to Black when
      Black does not Ack PlayerLeft, and the second "Game Over" removal then
      reads the session id of an empty seat, a NullReferenceException. */
  lemma ConcludeNullReference(r: Room)
    requires Seated(r) && r.white.value.sessionId != r.black.value.sessionId
    requires r.black.value.CanSend() && r.black.value.NextMessage() != Some(Ack)
    ensures var s := Conclude(r);
      s.exit == Faulted(NullReference) && s.room.white.None? && s.room.black.None? && !s.room.Registered()
  {
    var w := r.white.value;
    var b := r.black.value;
    assert MatchedSeat(r, w.sessionId) == Some(White);
    assert Remove(r, w.sessionId, true, "Game Over") == Evict(r, White, true, "Game Over");
    var r1 := Vacate(r, White, true, "Game Over");
    var r2 := r1.WithSeat(Black, Some(b.Sent(PlayerLeft).Consumed()));
    var why := CascadeReason(b.NextMessage());
    assert MatchedSeat(r2, b.sessionId) == Some(Black);
    assert Remove(r2, b.sessionId, true, why) == Evict(r2, Black, true, why);
    assert !Vacate(r2, Black, true, why).Live(White);
  }

  /** The catch only ever removes the room's own players (possibly disposing
      them): no seat is filled and the budget and id stay. */
  lemma DestroyFrame(r: Room, fault: Fault)
    ensures Anchored(r, Destroy(r, fault)) && Kept(r, Destroy(r, fault))
  {
    if r.Registered() {
      var reason := "Error " + fault.TypeName();
      var a := Remove(r, IdOrZero(r.white), true, reason);
      RemoveFrame(r, IdOrZero(r.white), true, reason);
      if a.completed {
        RemoveFrame(a.room, IdOrZero(a.room.black), true, reason);
        var b := Remove(a.room, IdOrZero(a.room.black), true, reason);
        AnchoredTrans(r, a.room, b.room);
        KeptTrans(r, a.room, b.room);
        if !b.completed {
          AnchoredTrans(r, b.room, Salvage(b.room));
        }
      } else {
        AnchoredTrans(r, a.room, Salvage(a.room));
      }
    }
  }

  lemma ConcludeFrame(r: Room)
    ensures Anchored(r, Conclude(r).room) && Kept(r, Conclude(r).room)
  {
    if r.white.Some? {
      var a := Remove(r, r.white.value.sessionId, true, "Game Over");
      RemoveFrame(r, r.white.value.sessionId, true, "Game Over");
      if a.completed && a.room.black.Some? {
        RemoveFrame(a.room, a.room.black.value.sessionId, true, "Game Over");
        AnchoredTrans(r, a.room, Conclude(r).room);
        KeptTrans(r, a.room, Conclude(r).room);
      }
    }
  }

  lemma AfterShutdownFrame(r: Room, moverId: string, opponentId: string)
    ensures Anchored(r, AfterShutdown(r, moverId, opponentId).room)
    ensures Kept(r, AfterShutdown(r, moverId, opponentId).room)
  {
    var a := Remove(r, opponentId, true, "Opponent connection lost");
    RemoveFrame(r, opponentId, true, "Opponent connection lost");
    if a.completed {
      RemoveFrame(a.room, moverId, false, "Unknown");
      AnchoredTrans(r, a.room, AfterShutdown(r, moverId, opponentId).room);
      KeptTrans(r, a.room, AfterShutdown(r, moverId, opponentId).room);
    }
  }

  lemma HandshakeFrame(r: Room, fen: string)
    requires Seated(r)
    ensures var h := Handshake(r, fen);
      Anchored(r, h.room) && Kept(r, h.room) && (h.exit.Proceed? ==> SameParties(r, h.room))
  {
    var w := r.white.value;
    var b := r.black.value;
    if w.CanSend() && b.CanSend() {
      var w1 := w.Sent(GetReady(true, r.moveTime, fen));
      var b1 := b.Sent(GetReady(false, r.moveTime, fen));
      var r1 := r.(white := Some(w1.Consumed()), black := Some(b1));
      var r2 := r1.(black := Some(b1.Consumed()));
      if w1.NextMessage() != Some(IsReady) {
        var shut := w1.NextMessage().Some? && !w1.NextMessage().value.ShutdownMsg?;
        RemoveFrame(r1, w.sessionId, shut, "Unresponsive client");
        AnchoredTrans(r, r1, Handshake(r, fen).room);
        KeptTrans(r, r1, Handshake(r, fen).room);
      } else if b1.NextMessage() != Some(IsReady) {
        var shut := b1.NextMessage().Some? && !b1.NextMessage().value.ShutdownMsg?;
        RemoveFrame(r2, b.sessionId, shut, "Unresponsive client");
        AnchoredTrans(r, r2, Handshake(r, fen).room);
        KeptTrans(r, r2, Handshake(r, fen).room);
      }
    }
  }

  /** The try body with its catch: the room's id and budget stay, the
      registry only loses this room, and no one new is ever seated. */
  lemma PlayFrame(r: Room, fen: string, events: seq<Event>)
    requires Seated(r)
    ensures var s := Play(r, fen, events);
      var t := if s.exit.Faulted? then Destroy(s.room, s.exit.fault) else s.room;
      Anchored(r, t) && Kept(r, t)
  {
    var h := Handshake(r, fen);
    HandshakeFrame(r, fen);
    var s := Play(r, fen, events);
    if h.exit.Proceed? {
      var g := Relay(h.room, events);
      RelayKeeps(h.room, events);
      assert Anchored(r, g.room) && Kept(r, g.room);
      if g.exit.Abandoned? {
        AfterShutdownFrame(g.room, g.exit.moverId, g.exit.opponentId);
      } else if !g.exit.Faulted? {
        ConcludeFrame(g.room);
      }
      AnchoredTrans(r, g.room, s.room);
      KeptTrans(r, g.room, s.room);
    }
    if s.exit.Faulted? {
      DestroyFrame(s.room, s.exit.fault);
      AnchoredTrans(r, s.room, Destroy(s.room, s.exit.fault));
      KeptTrans(r, s.room, Destroy(s.room, s.exit.fault));
    }
  }

  /** TryStartNewGame does nothing unless both seats hold live players; when
      it runs, InGame is false again afterwards, the room keeps its id and
      budget, the registry only loses this room and no one is seated. */
  lemma StartFrame(r: Room, fen: string, events: seq<Event>)
    ensures !r.Full() ==> StartGame(r, fen, events) == r
    ensures r.Full() ==> !StartGame(r, fen, events).inGame
    ensures Anchored(r, StartGame(r, fen, events)) && Kept(r, StartGame(r, fen, events))
  {
    if r.Full() {
      PlayFrame(r.(inGame := true), fen, events);
    }
  }

  /** Two distinct session ids, neither "0", that the seats (when filled) hold. */
  predicate Parted(r: Room, whiteId: string, blackId: string) {
    && whiteId != blackId && whiteId != "0" && blackId != "0"
    && (r.white.Some? ==> r.white.value.sessionId == whiteId)
    && (r.black.Some? ==> r.black.value.sessionId == blackId)
  }

  lemma RemoveParted(r: Room, whiteId: string, blackId: string, id: string, shutdown: bool, reason: string)
    requires Parted(r, whiteId, blackId)
    ensures var s := Remove(r, id, shutdown, reason).room;
      && Parted(s, whiteId, blackId)
      && (id == whiteId || (id == "0" && r.white.None?) ==> s.white.None?)
      && (id == blackId || (id == "0" && r.black.None?) ==> s.black.None?)
  {
    RemoveFrame(r, id, shutdown, reason);
    if MatchedSeat(r, id).Some? {
      RemoveVacates(r, id, shutdown, reason);
    }
  }

  /** The catch of a game between two players with distinct ids always ends
      with the room out of the registry: by the two removals or by the
      fallback. */
  lemma DestroyUnregisters(r: Room, fault: Fault, whiteId: string, blackId: string)
    requires Parted(r, whiteId, blackId)
    ensures !Destroy(r, fault).Registered()
  {
    if r.Registered() {
      var reason := "Error " + fault.TypeName();
      var a := Remove(r, IdOrZero(r.white), true, reason);
      RemoveParted(r, whiteId, blackId, IdOrZero(r.white), true, reason);
      if a.completed {
        var b := Remove(a.room, IdOrZero(a.room.black), true, reason);
        RemoveParted(a.room, whiteId, blackId, IdOrZero(a.room.black), true, reason);
        RemoveFrame(a.room, IdOrZero(a.room.black), true, reason);
        RemoveEmptyUnregisters(a.room, IdOrZero(a.room.black), true, reason);
      }
    }
  }

  lemma ConcludeUnregisters(r: Room, whiteId: string, blackId: string)
    requires Parted(r, whiteId, blackId)
    ensures var s := Conclude(r);
      !(if s.exit.Faulted? then Destroy(s.room, s.exit.fault) else s.room).Registered()
  {
    var s := Conclude(r);
    if r.white.Some? {
      var a := Remove(r, whiteId, true, "Game Over");
      RemoveParted(r, whiteId, blackId, whiteId, true, "Game Over");
      if a.completed && a.room.black.Some? {
        RemoveParted(a.room, whiteId, blackId, blackId, true, "Game Over");
        RemoveFrame(a.room, blackId, true, "Game Over");
        RemoveEmptyUnregisters(a.room, blackId, true, "Game Over");
      }
    }
    if s.exit.Faulted? {
      ConcludeFrame(r);
      DestroyUnregisters(s.room, s.exit.fault, whiteId, blackId);
    }
  }

  /** What the first removal after a Shutdown leaves in the mover's mailbox:
      nothing when it no longer reads as live; otherwise PlayerLeft and,
      unless it Acks, the cascade's Shutdown while its connection still
      takes a message. */
  function LeftMail(m: Player): seq<Msg> {
    if !m.live then []
    else [PlayerLeft] + (if m.NextMessage() != Some(Ack) && m.writesLeft >= 2
                         then [ShutdownMsg(CascadeReason(m.NextMessage()))] else [])
  }

  /** The mover sent Shutdown. Its opponent leaves first, told "Opponent
      connection lost" when that can be sent. The mover then leaves too: it
      is sent PlayerLeft by the first removal (and cascaded out with a
      Shutdown unless it Acks), and the second removal sends it nothing. A
      PlayerLeft that cannot be sent is the exception instead, with the
      mover still seated and no longer live. */
  lemma AfterShutdownMail(r: Room, moverId: string, opponentId: string)
    requires Seated(r) && r.toMove.Some? && moverId != opponentId
    requires moverId == r.Seat(r.toMove.value).value.sessionId
    requires opponentId == r.Seat(r.toMove.value.Opposite()).value.sessionId
    ensures var c := r.toMove.value; var m := r.Seat(c).value; var q := r.Seat(c.Opposite()).value;
      var s := AfterShutdown(r, moverId, opponentId); var n := |r.departed|;
      && s.room.Seat(c.Opposite()).None?
      && |s.room.departed| > n && s.room.departed[n].sessionId == opponentId
      && s.room.departed[n].outbox
         == q.outbox + (if q.CanSend() then [ShutdownMsg("Opponent connection lost")] else [])
      && (m.live && !m.CanSend() ==> s.exit == Faulted(SendFailed) && s.room.Seat(c) == Some(m.Broken()))
      && (!m.live || m.CanSend() ==>
            && s.exit == Closed && s.room.white.None? && s.room.black.None? && !s.room.Registered()
            && |s.room.departed| == n + 2 && s.room.departed[n + 1].sessionId == moverId
            && s.room.departed[n + 1].outbox == m.outbox + LeftMail(m))
  {
    var c := r.toMove.value;
    var o := c.Opposite();
    var m := r.Seat(c).value;
    var why := "Opponent connection lost";
    assert MatchedSeat(r, opponentId) == Some(o);
    var a := Remove(r, opponentId, true, why);
    RemoveVacates(r, opponentId, true, why);
    var r1 := Vacate(r, o, true, why);
    if m.live && !m.CanSend() {
      RemoveThrows(r, opponentId, true, why);
    } else if m.live && m.NextMessage() != Some(Ack) {
      RemoveCascade(r, opponentId, true, why);
      assert MatchedSeat(a.room, moverId).None?;
      RemoveUnmatched(a.room, moverId, false, "Unknown");
    } else {
      var m1 := if m.live then m.Sent(PlayerLeft).Consumed() else m;
      assert a == Removal(r1.WithSeat(c, Some(m1)), true);
      var r2 := r1.WithSeat(c, Some(m1));
      assert MatchedSeat(r2, moverId) == Some(c);
      assert Remove(r2, moverId, false, "Unknown") == Evict(r2, c, false, "Unknown");
      var r3 := Vacate(r2, c, false, "Unknown");
      assert r3.white.None? && r3.black.None?;
      assert r3.departed == r1.departed + [m1.Disposed()];
      assert m1.outbox == m.outbox + LeftMail(m);
    }
  }

  /** A send failed during the game, leaving Black no longer live (or White,
      with Black still reachable): the catch's two removals then complete
      and both seats end empty, with the room out of the registry. */
  lemma DestroyAfterFailedSend(r: Room, fault: Fault, whiteId: string, blackId: string)
    requires r.Registered() && Seated(r) && Parted(r, whiteId, blackId)
    requires !r.Live(Black) || (!r.Live(White) && r.black.value.CanSend())
    ensures var d := Destroy(r, fault);
      d.white.None? && d.black.None? && !d.Registered()
  {
    var reason := "Error " + fault.TypeName();
    assert MatchedSeat(r, whiteId) == Some(White);
    var a := Remove(r, whiteId, true, reason);
    var r1 := Vacate(r, White, true, reason);
    RemoveParted(r, whiteId, blackId, whiteId, true, reason);
    if !r.Live(Black) || r.black.value.NextMessage() == Some(Ack) {
      assert a.completed && a.room.black.Some?;
      var b := Remove(a.room, blackId, true, reason);
      assert MatchedSeat(a.room, blackId) == Some(Black);
      RemoveVacates(a.room, blackId, true, reason);
      RemoveEmptyUnregisters(a.room, blackId, true, reason);
    } else {
      RemoveCascade(r, whiteId, true, reason);
      RemoveUnmatched(a.room, "0", true, reason);
    }
  }

  lemma AfterShutdownUnregisters(r: Room, moverId: string, opponentId: string, whiteId: string, blackId: string)
    requires Parted(r, whiteId, blackId)
    requires (moverId == whiteId && opponentId == blackId) || (moverId == blackId && opponentId == whiteId)
    ensures var s := AfterShutdown(r, moverId, opponentId);
      !(if s.exit.Faulted? then Destroy(s.room, s.exit.fault) else s.room).Registered()
  {
    var s := AfterShutdown(r, moverId, opponentId);
    var a := Remove(r, opponentId, true, "Opponent connection lost");
    RemoveParted(r, whiteId, blackId, opponentId, true, "Opponent connection lost");
    if a.completed {
      RemoveParted(a.room, whiteId, blackId, moverId, false, "Unknown");
      RemoveFrame(a.room, moverId, false, "Unknown");
      RemoveEmptyUnregisters(a.room, moverId, false, "Unknown");
    }
    if s.exit.Faulted? {
      AfterShutdownFrame(r, moverId, opponentId);
      DestroyUnregisters(s.room, s.exit.fault, whiteId, blackId);
    }
  }

  /** Once both players answer IsReady, the room always leaves the registry,
      however the game ends: by GameOver, timeout, Shutdown or an exception,
      including a GetReady or GameStart that could not be sent. (Session ids
      are assumed distinct and not "0", the id the catch uses for an empty
      seat.) */
  lemma GameEndsRoom(r: Room, fen: string, events: seq<Event>)
    requires r.Full()
    requires Parted(r, r.white.value.sessionId, r.black.value.sessionId)
    requires r.white.value.NextMessage() == Some(IsReady) && r.black.value.NextMessage() == Some(IsReady)
    ensures !StartGame(r, fen, events).Registered()
  {
    var whiteId := r.white.value.sessionId;
    var blackId := r.black.value.sessionId;
    var r0 := r.(inGame := true);
    HandshakeFrame(r0, fen);
    var h := Handshake(r0, fen);
    assert Parted(h.room, whiteId, blackId);
    assert !h.exit.Closed?;
    if h.exit.Faulted? {
      DestroyUnregisters(h.room, h.exit.fault, whiteId, blackId);
    } else {
      RelayKeeps(h.room, events);
      var g := Relay(h.room, events);
      assert Parted(g.room, whiteId, blackId);
      if g.exit.Faulted? {
        DestroyUnregisters(g.room, g.exit.fault, whiteId, blackId);
      } else if g.exit.Abandoned? {
        var c := g.room.toMove.value;
        assert c == White || c == Black;
        AfterShutdownUnregisters(g.room, g.exit.moverId, g.exit.opponentId, whiteId, blackId);
      } else {
        ConcludeUnregisters(g.room, whiteId, blackId);
      }
    }
  }
}
