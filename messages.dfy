/** The message structs of the relay's wire protocol and their binary layout.
    Each struct writes its fields in declaration order through a BinaryWriter
    and reads them back in the same order through a BinaryReader; neither
    writes a tag or a frame of its own. `Encode` is what SerializeIntoStream
    appends, `Decode` is what ReadFromStream consumes, returning the value and
    the bytes after it. */
module Messages {
  import opened Wrappers
  import opened WireFormat
  import opened Streams

  /** Sent by the server first: ProtocolVersion, ServerVersion, SessionId. */
  datatype ServerHelloMsg = ServerHelloMsg(protocolVersion: Utf8, serverVersion: Utf8, sessionId: Utf8)
  {
    function Encode(): seq<byte>
    {
      EncodeString(protocolVersion) + EncodeString(serverVersion) + EncodeString(sessionId)
    }

    static function Decode(s: seq<byte>): Decoded<ServerHelloMsg>
    {
      var pv :- DecodeString(s);
      var sv :- DecodeString(pv.1);
      var id :- DecodeString(sv.1);
      Success((ServerHelloMsg(pv.0, sv.0, id.0), id.1))
    }

    method SerializeIntoStream(stream: ByteStream)
      requires stream.Valid()
      modifies stream
      ensures stream.Valid() && stream.buffer == old(stream.buffer) + Encode()
      ensures stream.position == old(stream.position)
    {
      stream.WriteString(protocolVersion);
      stream.WriteString(serverVersion);
      stream.WriteString(sessionId);
    }

    static method ReadFromStream(stream: ByteStream) returns (r: Result<ServerHelloMsg, ReadError>)
      requires stream.Valid()
      modifies stream
      ensures stream.Valid() && stream.buffer == old(stream.buffer)
      ensures Agrees(Decode(old(stream.Unread())), r, stream.Unread())
    {
      var pv :- stream.ReadString();
      var sv :- stream.ReadString();
      var id :- stream.ReadString();
      r := Success(ServerHelloMsg(pv, sv, id));
    }
  }

  /** Sent by the client in reply: ProtocolVersion, ClientVersion, RoomId. */
  datatype ClientHelloMsg = ClientHelloMsg(protocolVersion: Utf8, clientVersion: Utf8, roomId: Utf8)
  {
    function Encode(): seq<byte>
    {
      EncodeString(protocolVersion) + EncodeString(clientVersion) + EncodeString(roomId)
    }

    static function Decode(s: seq<byte>): Decoded<ClientHelloMsg>
    {
      var pv :- DecodeString(s);
      var cv :- DecodeString(pv.1);
      var room :- DecodeString(cv.1);
      Success((ClientHelloMsg(pv.0, cv.0, room.0), room.1))
    }

    method SerializeIntoStream(stream: ByteStream)
      requires stream.Valid()
      modifies stream
      ensures stream.Valid() && stream.buffer == old(stream.buffer) + Encode()
      ensures stream.position == old(stream.position)
    {
      stream.WriteString(protocolVersion);
      stream.WriteString(clientVersion);
      stream.WriteString(roomId);
    }

    static method ReadFromStream(stream: ByteStream) returns (r: Result<ClientHelloMsg, ReadError>)
      requires stream.Valid()
      modifies stream
      ensures stream.Valid() && stream.buffer == old(stream.buffer)
      ensures Agrees(Decode(old(stream.Unread())), r, stream.Unread())
    {
      var pv :- stream.ReadString();
      var cv :- stream.ReadString();
      var room :- stream.ReadString();
      r := Success(ClientHelloMsg(pv, cv, room));
    }
  }

  /** Server to client: RoomId, then StartsOffAsWhite. */
  datatype RoomInfo = RoomInfo(roomId: Utf8, startsOffAsWhite: bool)
  {
    function Encode(): seq<byte>
    {
      EncodeString(roomId) + EncodeBool(startsOffAsWhite)
    }

    static function Decode(s: seq<byte>): Decoded<RoomInfo>
    {
      var room :- DecodeString(s);
      var white :- DecodeBool(room.1);
      Success((RoomInfo(room.0, white.0), white.1))
    }

    method SerializeIntoStream(stream: ByteStream)
      requires stream.Valid()
      modifies stream
      ensures stream.Valid() && stream.buffer == old(stream.buffer) + Encode()
      ensures stream.position == old(stream.position)
    {
      stream.WriteString(roomId);
      stream.WriteBool(startsOffAsWhite);
    }

    static method ReadFromStream(stream: ByteStream) returns (r: Result<RoomInfo, ReadError>)
      requires stream.Valid()
      modifies stream
      ensures stream.Valid() && stream.buffer == old(stream.buffer)
      ensures Agrees(Decode(old(stream.Unread())), r, stream.Unread())
    {
      var room :- stream.ReadString();
      var white :- stream.ReadBoolean();
      r := Success(RoomInfo(room, white));
    }
  }

  /** Client to server after the hello: PreferredTimeForEachPlayer, PreferWhite. */
  datatype ClientPreferences = ClientPreferences(preferredTimeForEachPlayer: Int32, preferWhite: bool)
  {
    function Encode(): seq<byte>
    {
      EncodeInt32(preferredTimeForEachPlayer) + EncodeBool(preferWhite)
    }

    static function Decode(s: seq<byte>): Decoded<ClientPreferences>
    {
      var time :- DecodeInt32(s);
      var white :- DecodeBool(time.1);
      Success((ClientPreferences(time.0, white.0), white.1))
    }

    method SerializeIntoStream(stream: ByteStream)
      requires stream.Valid()
      modifies stream
      ensures stream.Valid() && stream.buffer == old(stream.buffer) + Encode()
      ensures stream.position == old(stream.position)
    {
      stream.WriteInt32(preferredTimeForEachPlayer);
      stream.WriteBool(preferWhite);
    }

    static method ReadFromStream(stream: ByteStream) returns (r: Result<ClientPreferences, ReadError>)
      requires stream.Valid()
      modifies stream
      ensures stream.Valid() && stream.buffer == old(stream.buffer)
      ensures Agrees(Decode(old(stream.Unread())), r, stream.Unread())
    {
      var time :- stream.ReadInt32();
      var white :- stream.ReadBoolean();
      r := Success(ClientPreferences(time, white));
    }
  }

  /** Server to client after the preferences: TimeForEachPlayer, IsWhite. */
  datatype GameSettings = GameSettings(timeForEachPlayer: Int32, isWhite: bool)
  {
    function Encode(): seq<byte>
    {
      EncodeInt32(timeForEachPlayer) + EncodeBool(isWhite)
    }

    static function Decode(s: seq<byte>): Decoded<GameSettings>
    {
      var time :- DecodeInt32(s);
      var white :- DecodeBool(time.1);
      Success((GameSettings(time.0, white.0), white.1))
    }

    method SerializeIntoStream(stream: ByteStream)
      requires stream.Valid()
      modifies stream
      ensures stream.Valid() && stream.buffer == old(stream.buffer) + Encode()
      ensures stream.position == old(stream.position)
    {
      stream.WriteInt32(timeForEachPlayer);
      stream.WriteBool(isWhite);
    }

    static method ReadFromStream(stream: ByteStream) returns (r: Result<GameSettings, ReadError>)
      requires stream.Valid()
      modifies stream
      ensures stream.Valid() && stream.buffer == old(stream.buffer)
      ensures Agrees(Decode(old(stream.Unread())), r, stream.Unread())
    {
      var time :- stream.ReadInt32();
      var white :- stream.ReadBoolean();
      r := Success(GameSettings(time, white));
    }
  }

  /** Client to server: the ready signal, one bool. */
  datatype IsReady = IsReady(isReady: bool)
  {
    function Encode(): seq<byte>
    {
      EncodeBool(isReady)
    }

    static function Decode(s: seq<byte>): Decoded<IsReady>
    {
      var ready :- DecodeBool(s);
      Success((IsReady(ready.0), ready.1))
    }

    method SerializeIntoStream(stream: ByteStream)
      requires stream.Valid()
      modifies stream
      ensures stream.Valid() && stream.buffer == old(stream.buffer) + Encode()
      ensures stream.position == old(stream.position)
    {
      stream.WriteBool(isReady);
    }

    static method ReadFromStream(stream: ByteStream) returns (r: Result<IsReady, ReadError>)
      requires stream.Valid()
      modifies stream
      ensures stream.Valid() && stream.buffer == old(stream.buffer)
      ensures Agrees(Decode(old(stream.Unread())), r, stream.Unread())
    {
      var ready :- stream.ReadBoolean();
      r := Success(IsReady(ready));
    }
  }

  /** Server to clients: the Timestamp the clients time their moves from. */
  datatype GameStart = GameStart(timestamp: Int64)
  {
    function Encode(): seq<byte>
    {
      EncodeInt64(timestamp)
    }

    static function Decode(s: seq<byte>): Decoded<GameStart>
    {
      var stamp :- DecodeInt64(s);
      Success((GameStart(stamp.0), stamp.1))
    }

    method SerializeIntoStream(stream: ByteStream)
      requires stream.Valid()
      modifies stream
      ensures stream.Valid() && stream.buffer == old(stream.buffer) + Encode()
      ensures stream.position == old(stream.position)
    {
      stream.WriteInt64(timestamp);
    }

    static method ReadFromStream(stream: ByteStream) returns (r: Result<GameStart, ReadError>)
      requires stream.Valid()
      modifies stream
      ensures stream.Valid() && stream.buffer == old(stream.buffer)
      ensures Agrees(Decode(old(stream.Unread())), r, stream.Unread())
    {
      var stamp :- stream.ReadInt64();
      r := Success(GameStart(stamp));
    }
  }

  /** A move: LastMove, then MoveName, then Clock. */
  datatype MoveMessage = MoveMessage(lastMove: bool, moveName: Utf8, clock: Int64)
  {
    function Encode(): seq<byte>
    {
      EncodeBool(lastMove) + EncodeString(moveName) + EncodeInt64(clock)
    }

    static function Decode(s: seq<byte>): Decoded<MoveMessage>
    {
      var last :- DecodeBool(s);
      var name :- DecodeString(last.1);
      var clock :- DecodeInt64(name.1);
      Success((MoveMessage(last.0, name.0, clock.0), clock.1))
    }

    method SerializeIntoStream(stream: ByteStream)
      requires stream.Valid()
      modifies stream
      ensures stream.Valid() && stream.buffer == old(stream.buffer) + Encode()
      ensures stream.position == old(stream.position)
    {
      stream.WriteBool(lastMove);
      stream.WriteString(moveName);
      stream.WriteInt64(clock);
    }

    static method ReadFromStream(stream: ByteStream) returns (r: Result<MoveMessage, ReadError>)
      requires stream.Valid()
      modifies stream
      ensures stream.Valid() && stream.buffer == old(stream.buffer)
      ensures Agrees(Decode(old(stream.Unread())), r, stream.Unread())
    {
      var last :- stream.ReadBoolean();
      var name :- stream.ReadString();
      var clock :- stream.ReadInt64();
      r := Success(MoveMessage(last, name, clock));
    }
  }

  /** A request for another game: IsWhite. */
  datatype NewGameRequest = NewGameRequest(isWhite: bool)
  {
    function Encode(): seq<byte>
    {
      EncodeBool(isWhite)
    }

    static function Decode(s: seq<byte>): Decoded<NewGameRequest>
    {
      var white :- DecodeBool(s);
      Success((NewGameRequest(white.0), white.1))
    }

    method SerializeIntoStream(stream: ByteStream)
      requires stream.Valid()
      modifies stream
      ensures stream.Valid() && stream.buffer == old(stream.buffer) + Encode()
      ensures stream.position == old(stream.position)
    {
      stream.WriteBool(isWhite);
    }

    static method ReadFromStream(stream: ByteStream) returns (r: Result<NewGameRequest, ReadError>)
      requires stream.Valid()
      modifies stream
      ensures stream.Valid() && stream.buffer == old(stream.buffer)
      ensures Agrees(Decode(old(stream.Unread())), r, stream.Unread())
    {
      var white :- stream.ReadBoolean();
      r := Success(NewGameRequest(white));
    }
  }

  // ---------------------------------------------------------------------------
  // Round trips and layouts, struct by struct. Each round trip has arbitrary
  // bytes after the message, so decoding stops exactly where the writer did.

  lemma ServerHelloRoundTrip(m: ServerHelloMsg, rest: seq<byte>)
    ensures ServerHelloMsg.Decode(m.Encode() + rest) == Success((m, rest))
  {
    var t2 := EncodeString(m.sessionId) + rest;
    var t1 := EncodeString(m.serverVersion) + t2;
    assert m.Encode() + rest == EncodeString(m.protocolVersion) + t1;
    StringRoundTrip(m.protocolVersion, t1);
    StringRoundTrip(m.serverVersion, t2);
    StringRoundTrip(m.sessionId, rest);
  }

  lemma ServerHelloLayout(m: ServerHelloMsg)
    ensures |m.Encode()| == PrefixSize(|m.protocolVersion|) + |m.protocolVersion|
                          + PrefixSize(|m.serverVersion|) + |m.serverVersion|
                          + PrefixSize(|m.sessionId|) + |m.sessionId|
  {
    StringLayout(m.protocolVersion);
    StringLayout(m.serverVersion);
    StringLayout(m.sessionId);
  }

  lemma ClientHelloRoundTrip(m: ClientHelloMsg, rest: seq<byte>)
    ensures ClientHelloMsg.Decode(m.Encode() + rest) == Success((m, rest))
  {
    var t2 := EncodeString(m.roomId) + rest;
    var t1 := EncodeString(m.clientVersion) + t2;
    assert m.Encode() + rest == EncodeString(m.protocolVersion) + t1;
    StringRoundTrip(m.protocolVersion, t1);
    StringRoundTrip(m.clientVersion, t2);
    StringRoundTrip(m.roomId, rest);
  }

  /** All three fields empty: three zero bytes, which decode back. */
  lemma ClientHelloEmpty()
    ensures ClientHelloMsg([], [], []).Encode() == [0, 0, 0]
    ensures ClientHelloMsg.Decode([0, 0, 0]) == Success((ClientHelloMsg([], [], []), []))
  {
    StringLayout([]);
    ClientHelloRoundTrip(ClientHelloMsg([], [], []), []);
  }

  lemma RoomInfoRoundTrip(m: RoomInfo, rest: seq<byte>)
    ensures RoomInfo.Decode(m.Encode() + rest) == Success((m, rest))
  {
    var t1 := EncodeBool(m.startsOffAsWhite) + rest;
    assert m.Encode() + rest == EncodeString(m.roomId) + t1;
    StringRoundTrip(m.roomId, t1);
    BoolRoundTrip(m.startsOffAsWhite, rest);
  }

  /** A string, then exactly one byte that is 1 for white and 0 otherwise. */
  lemma RoomInfoLayout(m: RoomInfo)
    ensures m.Encode() == EncodeString(m.roomId) + [if m.startsOffAsWhite then 1 else 0]
    ensures |m.Encode()| == PrefixSize(|m.roomId|) + |m.roomId| + 1
    ensures m.Encode()[|m.Encode()| - 1] in {0, 1}
  {
    StringLayout(m.roomId);
  }

  lemma ClientPreferencesRoundTrip(m: ClientPreferences, rest: seq<byte>)
    ensures ClientPreferences.Decode(m.Encode() + rest) == Success((m, rest))
  {
    var t1 := EncodeBool(m.preferWhite) + rest;
    assert m.Encode() + rest == EncodeInt32(m.preferredTimeForEachPlayer) + t1;
    Int32RoundTrip(m.preferredTimeForEachPlayer, t1);
    BoolRoundTrip(m.preferWhite, rest);
  }

  /** Four little-endian bytes of the Int32, then the bool byte. */
  lemma ClientPreferencesLayout(m: ClientPreferences)
    ensures |m.Encode()| == 5
    ensures m.Encode()[..4] == EncodeInt32(m.preferredTimeForEachPlayer)
    ensures m.Encode()[4] == if m.preferWhite then 1 else 0
  {
  }

  lemma GameSettingsRoundTrip(m: GameSettings, rest: seq<byte>)
    ensures GameSettings.Decode(m.Encode() + rest) == Success((m, rest))
  {
    var t1 := EncodeBool(m.isWhite) + rest;
    assert m.Encode() + rest == EncodeInt32(m.timeForEachPlayer) + t1;
    Int32RoundTrip(m.timeForEachPlayer, t1);
    BoolRoundTrip(m.isWhite, rest);
  }

  lemma GameSettingsLayout(m: GameSettings)
    ensures |m.Encode()| == 5
    ensures m.Encode()[..4] == EncodeInt32(m.timeForEachPlayer)
    ensures m.Encode()[4] == if m.isWhite then 1 else 0
  {
  }

  /** A negative Int32 travels as its two's complement: -1 is four 0xFF bytes. */
  lemma NegativeTimeEncoding()
    ensures ClientPreferences(-1, false).Encode() == [0xFF, 0xFF, 0xFF, 0xFF, 0x00]
  {
    assert EncodeLE(0xFF, 1) == [0xFF];
    assert EncodeLE(0xFFFF, 2) == [0xFF, 0xFF];
    assert EncodeLE(0xFF_FFFF, 3) == [0xFF, 0xFF, 0xFF];
    assert EncodeLE(0xFFFF_FFFF, 4) == [0xFF, 0xFF, 0xFF, 0xFF];
  }

  lemma IsReadyRoundTrip(m: IsReady, rest: seq<byte>)
    ensures IsReady.Decode(m.Encode() + rest) == Success((m, rest))
    ensures |m.Encode()| == 1
  {
    BoolRoundTrip(m.isReady, rest);
  }

  lemma GameStartRoundTrip(m: GameStart, rest: seq<byte>)
    ensures GameStart.Decode(m.Encode() + rest) == Success((m, rest))
    ensures |m.Encode()| == 8
  {
    Int64RoundTrip(m.timestamp, rest);
  }

  lemma NewGameRequestRoundTrip(m: NewGameRequest, rest: seq<byte>)
    ensures NewGameRequest.Decode(m.Encode() + rest) == Success((m, rest))
    ensures |m.Encode()| == 1
  {
    BoolRoundTrip(m.isWhite, rest);
  }

  lemma MoveMessageRoundTrip(m: MoveMessage, rest: seq<byte>)
    ensures MoveMessage.Decode(m.Encode() + rest) == Success((m, rest))
  {
    var t2 := EncodeInt64(m.clock) + rest;
    var t1 := EncodeString(m.moveName) + t2;
    assert m.Encode() + rest == EncodeBool(m.lastMove) + t1;
    BoolRoundTrip(m.lastMove, t1);
    StringRoundTrip(m.moveName, t2);
    Int64RoundTrip(m.clock, rest);
  }

  /** LastMove's byte, MoveName's prefix and bytes, then the eight Clock bytes. */
  lemma MoveMessageLayout(m: MoveMessage)
    ensures |m.Encode()| == 1 + PrefixSize(|m.moveName|) + |m.moveName| + 8
    ensures m.Encode()[0] == if m.lastMove then 1 else 0
    ensures m.Encode()[|m.Encode()| - 8..] == EncodeInt64(m.clock)
  {
    StringLayout(m.moveName);
  }

  // ---------------------------------------------------------------------------
  // The ISerializableMessage interface over the nine structs

  datatype Serializable =
    | ServerHello(serverHello: ServerHelloMsg)
    | ClientHello(clientHello: ClientHelloMsg)
    | Room(roomInfo: RoomInfo)
    | Preferences(preferences: ClientPreferences)
    | Settings(settings: GameSettings)
    | Ready(ready: IsReady)
    | Start(start: GameStart)
    | Move(move: MoveMessage)
    | NewGame(newGame: NewGameRequest)
  {
    function Encode(): seq<byte>
    {
      match this
      case ServerHello(m) => m.Encode()
      case ClientHello(m) => m.Encode()
      case Room(m) => m.Encode()
      case Preferences(m) => m.Encode()
      case Settings(m) => m.Encode()
      case Ready(m) => m.Encode()
      case Start(m) => m.Encode()
      case Move(m) => m.Encode()
      case NewGame(m) => m.Encode()
    }

    /** Read `s` as a struct of the same type as this one; the struct that
        ReadFromStream is called on only chooses which fields are read. */
    function DecodeSameKind(s: seq<byte>): (r: Decoded<Serializable>)
      ensures r.Success? ==> SameKind(r.value.0)
    {
      match this
      case ServerHello(_) => var d :- ServerHelloMsg.Decode(s); Success((ServerHello(d.0), d.1))
      case ClientHello(_) => var d :- ClientHelloMsg.Decode(s); Success((ClientHello(d.0), d.1))
      case Room(_) => var d :- RoomInfo.Decode(s); Success((Room(d.0), d.1))
      case Preferences(_) => var d :- ClientPreferences.Decode(s); Success((Preferences(d.0), d.1))
      case Settings(_) => var d :- GameSettings.Decode(s); Success((Settings(d.0), d.1))
      case Ready(_) => var d :- IsReady.Decode(s); Success((Ready(d.0), d.1))
      case Start(_) => var d :- GameStart.Decode(s); Success((Start(d.0), d.1))
      case Move(_) => var d :- MoveMessage.Decode(s); Success((Move(d.0), d.1))
      case NewGame(_) => var d :- NewGameRequest.Decode(s); Success((NewGame(d.0), d.1))
    }

    predicate SameKind(other: Serializable)
    {
      match this
      case ServerHello(_) => other.ServerHello?
      case ClientHello(_) => other.ClientHello?
      case Room(_) => other.Room?
      case Preferences(_) => other.Preferences?
      case Settings(_) => other.Settings?
      case Ready(_) => other.Ready?
      case Start(_) => other.Start?
      case Move(_) => other.Move?
      case NewGame(_) => other.NewGame?
    }

    method SerializeIntoStream(stream: ByteStream)
      requires stream.Valid()
      modifies stream
      ensures stream.Valid() && stream.buffer == old(stream.buffer) + Encode()
      ensures stream.position == old(stream.position)
    {
      match this
      case ServerHello(m) => m.SerializeIntoStream(stream);
      case ClientHello(m) => m.SerializeIntoStream(stream);
      case Room(m) => m.SerializeIntoStream(stream);
      case Preferences(m) => m.SerializeIntoStream(stream);
      case Settings(m) => m.SerializeIntoStream(stream);
      case Ready(m) => m.SerializeIntoStream(stream);
      case Start(m) => m.SerializeIntoStream(stream);
      case Move(m) => m.SerializeIntoStream(stream);
      case NewGame(m) => m.SerializeIntoStream(stream);
    }

    method ReadFromStream(stream: ByteStream) returns (r: Result<Serializable, ReadError>)
      requires stream.Valid()
      modifies stream
      ensures stream.Valid() && stream.buffer == old(stream.buffer)
      ensures Agrees(DecodeSameKind(old(stream.Unread())), r, stream.Unread())
    {
      match this
      case ServerHello(_) => var m :- ServerHelloMsg.ReadFromStream(stream); r := Success(ServerHello(m));
      case ClientHello(_) => var m :- ClientHelloMsg.ReadFromStream(stream); r := Success(ClientHello(m));
      case Room(_) => var m :- RoomInfo.ReadFromStream(stream); r := Success(Room(m));
      case Preferences(_) => var m :- ClientPreferences.ReadFromStream(stream); r := Success(Preferences(m));
      case Settings(_) => var m :- GameSettings.ReadFromStream(stream); r := Success(Settings(m));
      case Ready(_) => var m :- IsReady.ReadFromStream(stream); r := Success(Ready(m));
      case Start(_) => var m :- GameStart.ReadFromStream(stream); r := Success(Start(m));
      case Move(_) => var m :- MoveMessage.ReadFromStream(stream); r := Success(Move(m));
      case NewGame(_) => var m :- NewGameRequest.ReadFromStream(stream); r := Success(NewGame(m));
    }

    /** SerializeAsArray: the bytes SerializeIntoStream writes into a fresh stream. */
    method SerializeAsArray() returns (bytes: seq<byte>)
      ensures bytes == Encode()
    {
      var stream := new ByteStream();
      SerializeIntoStream(stream);
      bytes := stream.buffer;
    }

    /** DeserializeFromArray: ReadFromStream over a stream holding `bytes`.
        Bytes after the struct are left unread and dropped with the stream. */
    method DeserializeFromArray(bytes: seq<byte>) returns (r: Result<Serializable, ReadError>)
      ensures match DecodeSameKind(bytes)
              case Success(d) => r == Success(d.0)
              case Failure(e) => r == Failure(e)
    {
      var stream := new ByteStream.FromArray(bytes);
      r := ReadFromStream(stream);
    }
  }

  /** Every struct decodes from its own encoding followed by anything at all. */
  lemma {:induction false} RoundTrip(m: Serializable, rest: seq<byte>)
    ensures m.DecodeSameKind(m.Encode() + rest) == Success((m, rest))
  {
    match m
    case ServerHello(x) => ServerHelloRoundTrip(x, rest);
    case ClientHello(x) => ClientHelloRoundTrip(x, rest);
    case Room(x) => RoomInfoRoundTrip(x, rest);
    case Preferences(x) => ClientPreferencesRoundTrip(x, rest);
    case Settings(x) => GameSettingsRoundTrip(x, rest);
    case Ready(x) => IsReadyRoundTrip(x, rest);
    case Start(x) => GameStartRoundTrip(x, rest);
    case Move(x) => MoveMessageRoundTrip(x, rest);
    case NewGame(x) => NewGameRequestRoundTrip(x, rest);
  }

  /** DeserializeFromArray(SerializeAsArray(m)) restores m. */
  method ArrayRoundTrip(m: Serializable) returns (r: Result<Serializable, ReadError>)
    ensures r == Success(m)
  {
    var bytes := m.SerializeAsArray();
    RoundTrip(m, []);
    assert bytes + [] == bytes;
    r := m.DeserializeFromArray(bytes);
  }

  /** Reading from a stream whose unread bytes start with m's encoding
      yields m and leaves the cursor on the bytes after it. */
  method ReadBack(m: Serializable, stream: ByteStream, ghost rest: seq<byte>) returns (r: Result<Serializable, ReadError>)
    requires stream.Valid() && stream.Unread() == m.Encode() + rest
    modifies stream
    ensures stream.Valid() && stream.Unread() == rest
    ensures r == Success(m)
  {
    RoundTrip(m, rest);
    r := m.ReadFromStream(stream);
  }

  /** Two messages written one after the other through writers that leave
      the stream open are read back in order, each reader stopping exactly
      where its message ends. */
  method SharedStream(first: Serializable, second: Serializable) returns (a: Result<Serializable, ReadError>, b: Result<Serializable, ReadError>)
    ensures a == Success(first) && b == Success(second)
  {
    ghost var one, two := first.Encode(), second.Encode();
    var stream := new ByteStream();
    first.SerializeIntoStream(stream);
    assert stream.buffer == one && stream.position == 0;
    second.SerializeIntoStream(stream);
    assert stream.buffer == one + two && stream.position == 0;
    a := ReadBack(first, stream, two);
    assert two + [] == two;
    b := ReadBack(second, stream, []);
  }
}
