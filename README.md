# Chess-Challenge-Server: the wire codecs and the match room, in Dafny

Chess-Challenge-Server is a relay that pairs two chess engines in a room,
hands them the start position and a per-move time budget, and relays their
moves. It never checks that a move is legal. This project models two parts
of it and proves properties of both.

- **The binary message codecs** (`Messages.cs`). Each message struct writes
  its fields in order through a .NET `BinaryWriter` and reads them back in
  the same order through a `BinaryReader`.
  - Strings are a 7-bit-encoded (LEB128) length prefix, then their UTF-8
    bytes.
  - `bool` is one byte.
  - `int` and `long` are 4 and 8 little-endian two's-complement bytes.
- **The `MatchRoom` state machine** (`MatchRoom.cs`). It holds:
  - the two seats;
  - the move-time budget;
  - the `InGame` flag;
  - the `NextToMove`/`NextNotToMove` roles;
  - its entry in the server-wide registry of active rooms.

  Its operations are joining (`TryAddPlayer`), the recursive eviction with
  its Ack-gated cascade (`RemovePlayer`), and the game
  (`TryStartNewGame`). A game consists of the readiness handshake, the move
  relay with its clocks and timeouts, the "Game Over" removals and the
  catch that tears the room down.

## Layout

| file | module | contents |
|---|---|---|
| `wrappers.dfy` | `Wrappers` | `Option` and `Result` |
| `wire_format.dfy` | `WireFormat` | pure encoders and decoders of the primitives: little-endian integers, bool, the 7-bit length prefix, strings; round-trip and layout lemmas |
| `streams.dfy` | `Streams` | `ByteStream`, a buffer with a read position, whose `Write*`/`Read*` methods are `BinaryWriter`/`BinaryReader`; each is proved against the pure codec |
| `messages.dfy` | `Messages` | the nine message structs with `Encode`/`Decode` and the stream methods `SerializeIntoStream`/`ReadFromStream`; `Serializable` with `SerializeAsArray`/`DeserializeFromArray` |
| `players.dfy` | `Players` | the room's view of a connected player (`Player`) and of a joining client |
| `room_spec.dfy` | `RoomSpec` | every `MatchRoom` method, try body and catch block as a pure function on the room's whole state (`Room`) |
| `match_room.dfy` | `Rooms` | the `MatchRoom` class, whose fields are the source's fields, and the `Registry` class; each method is proved to compute its `RoomSpec` function |
| `room_properties.dfy` | `RoomProperties` | what the room promises, as lemmas about the `RoomSpec` functions |

For the room, each of the class's methods ensures
`Snapshot() == F(old(Snapshot()))`, where `F` is its `RoomSpec` function.
The lemmas in `RoomProperties` then say what `F` does. They carry over to
the class through that postcondition.

How the model represents the room and its players:
- A player is a value holding:
  - its session id and user name;
  - a `live` flag, standing in for the socket probes of
    `IsWhitePlayerLive`/`IsBlackPlayerLive`;
  - `writesLeft`, the number of sends that still succeed before the
    connection breaks; a send that throws leaves the player seated with
    `live` cleared, as `Client.Connected` then reports;
  - the script of replies it will give (`GetNextMessage` takes the next
    one, or gives `null` when the script is empty);
  - the log of messages it was sent;
  - a clock that accrues time only while started.
- Evicted players are kept, in order, in the room state's `departed` log.
  This keeps visible what the room sent them before they left.
- Exceptions are values:
  - `Removal.completed` is false when `RemovePlayer` threw;
  - `Outcome.Threw` means an exception escaped `TryAddPlayer`;
  - `Exit.Faulted(fault)` marks the exception that lands in the catch of
    `TryStartNewGame`.
- The busy-wait of the game loop is driven by a finite list of events.
  `Tick(k)` is k milliseconds passing. `Arrive(m)` is message m arriving
  from the player to move. When the events run out, the mover's clock runs
  on to the budget.

A few facts about the messages and the room that the model keeps as they are:
- `ClientHelloMsg` holds ProtocolVersion, ClientVersion and RoomId, and no
  user name (Messages.cs:53-57).
- `ClientPreferences` holds an Int32 time and a bool (Messages.cs:106-107).
- `TryAddPlayer` never changes `PlayerMoveTimeMillis`. Only
  `TrySetPlayerMoveTime` does.

## Model

| member | source | states |
|---|---|---|
| WireFormat.DecodeEncodeLE | Chess-Challenge-Server/Messages.cs:108-122 | the little-endian bytes of a number below 256^width decode back to it |
| WireFormat.EncodeBool | Chess-Challenge-Server/Messages.cs:90 | a bool is one byte, 1 for true and 0 for false |
| WireFormat.DecodeBool | Chess-Challenge-Server/Messages.cs:98 | ReadBoolean fails with end-of-stream exactly on empty input, and otherwise reads any nonzero byte as true and consumes exactly one byte |
| WireFormat.BoolRoundTrip | Chess-Challenge-Server/Messages.cs:86-100 | a written bool reads back, with the following bytes untouched |
| WireFormat.DecodeInt32 | Chess-Challenge-Server/Messages.cs:119 | ReadInt32 fails exactly when fewer than 4 bytes remain, and otherwise consumes exactly 4 |
| WireFormat.Int32RoundTrip | Chess-Challenge-Server/Messages.cs:108-122 | every Int32, negative ones included, reads back from its 4 bytes, with the rest untouched |
| WireFormat.DecodeInt64 | Chess-Challenge-Server/Messages.cs:180 | ReadInt64 fails exactly when fewer than 8 bytes remain, and otherwise consumes exactly 8 |
| WireFormat.Int64RoundTrip | Chess-Challenge-Server/Messages.cs:171-181 | every Int64 reads back from its 8 bytes, with the rest untouched |
| WireFormat.PrefixRoundTrip | Chess-Challenge-Server/Messages.cs:33-48 | a string's byte count (below 2^31) reads back from its 7-bit prefix, which is 1 to 5 bytes long, with the rest untouched |
| WireFormat.PrefixLength | Chess-Challenge-Server/Messages.cs:36 | the prefix has exactly as many bytes as the count has 7-bit groups |
| WireFormat.PaddedPrefixAccepted | Chess-Challenge-Server/Messages.cs:45 | the reader accepts a zero-padded prefix the writer never emits; zero is written as the single byte 0x00 |
| WireFormat.OverlongPrefixRefused | Chess-Challenge-Server/Messages.cs:45 | a fifth prefix byte above 15 is a format error; a length with bit 31 set is refused as negative |
| WireFormat.DecodeString | Chess-Challenge-Server/Messages.cs:45 | ReadString consumes a part of the input and leaves a suffix of it unread |
| WireFormat.StringLayout | Chess-Challenge-Server/Messages.cs:36 | a string is its byte count's prefix followed by exactly its bytes; the empty string is the single byte 0x00 |
| WireFormat.StringRoundTrip | Chess-Challenge-Server/Messages.cs:33-48 | a written string reads back, with the following bytes untouched |
| Streams.ByteStream.constructor | Chess-Challenge-Server/Messages.cs:10 | a new MemoryStream is empty and read from its start |
| Streams.ByteStream.FromArray | Chess-Challenge-Server/Messages.cs:19 | a MemoryStream over bytes reads exactly those bytes |
| Streams.ByteStream.WriteByte | Chess-Challenge-Server/Messages.cs:90 | BinaryWriter appending one byte: the buffer grows by exactly that byte and the read position stays |
| Streams.ByteStream.WriteBytes | Chess-Challenge-Server/Messages.cs:36 | BinaryWriter appending a block of bytes: the buffer grows by exactly those bytes and the read position stays |
| Streams.ByteStream.Write7BitEncodedInt | Chess-Challenge-Server/Messages.cs:36 | the loop appends exactly the 7-bit prefix of the count |
| Streams.ByteStream.WriteString | Chess-Challenge-Server/Messages.cs:36 | appends the string's encoding and leaves the read position alone |
| Streams.ByteStream.WriteBool | Chess-Challenge-Server/Messages.cs:90 | appends the bool's byte |
| Streams.ByteStream.WriteInt32 | Chess-Challenge-Server/Messages.cs:111 | appends the Int32's 4 bytes |
| Streams.ByteStream.WriteInt64 | Chess-Challenge-Server/Messages.cs:174 | appends the Int64's 8 bytes |
| Streams.ByteStream.ReadByte | Chess-Challenge-Server/Messages.cs:98 | reads the next byte, or fails with end-of-stream when none is left |
| Streams.ByteStream.ReadBytes | Chess-Challenge-Server/Messages.cs:45 | reads exactly n bytes, or fails with end-of-stream when fewer are left |
| Streams.ByteStream.Read7BitEncodedInt | Chess-Challenge-Server/Messages.cs:45 | the loop reads what the prefix decoder reads, consuming exactly the prefix |
| Streams.ByteStream.ReadString | Chess-Challenge-Server/Messages.cs:45 | agrees with the string decoder and consumes what it consumes |
| Streams.ByteStream.ReadBoolean | Chess-Challenge-Server/Messages.cs:98 | agrees with the bool decoder and consumes one byte |
| Streams.ByteStream.ReadInt32 | Chess-Challenge-Server/Messages.cs:119 | agrees with the Int32 decoder and consumes 4 bytes |
| Streams.ByteStream.ReadInt64 | Chess-Challenge-Server/Messages.cs:180 | agrees with the Int64 decoder and consumes 8 bytes |
| Messages.ServerHelloMsg.SerializeIntoStream | Chess-Challenge-Server/Messages.cs:33-39 | appends ProtocolVersion, ServerVersion and SessionId, in that order |
| Messages.ServerHelloMsg.ReadFromStream | Chess-Challenge-Server/Messages.cs:41-48 | reads the three strings back in the written order, consuming exactly the message |
| Messages.ServerHelloRoundTrip | Chess-Challenge-Server/Messages.cs:33-48 | decoding a ServerHello's encoding gives the same three strings, with the rest untouched |
| Messages.ServerHelloLayout | Chess-Challenge-Server/Messages.cs:33-39 | its length is the sum of each string's prefix and bytes |
| Messages.ClientHelloMsg.SerializeIntoStream | Chess-Challenge-Server/Messages.cs:60-66 | appends ProtocolVersion, ClientVersion and RoomId |
| Messages.ClientHelloMsg.ReadFromStream | Chess-Challenge-Server/Messages.cs:68-75 | reads them back in order, consuming exactly the message |
| Messages.ClientHelloRoundTrip | Chess-Challenge-Server/Messages.cs:60-75 | a ClientHello round-trips, with the rest untouched |
| Messages.ClientHelloEmpty | Chess-Challenge-Server/Messages.cs:60-75 | three empty strings encode to three zero bytes, which decode back |
| Messages.RoomInfo.SerializeIntoStream | Chess-Challenge-Server/Messages.cs:86-91 | appends RoomId, then StartsOffAsWhite |
| Messages.RoomInfo.ReadFromStream | Chess-Challenge-Server/Messages.cs:93-100 | reads them back, consuming exactly the message |
| Messages.RoomInfoRoundTrip | Chess-Challenge-Server/Messages.cs:86-100 | a RoomInfo round-trips |
| Messages.RoomInfoLayout | Chess-Challenge-Server/Messages.cs:86-91 | a string followed by exactly one byte, which is 0 or 1 |
| Messages.ClientPreferences.SerializeIntoStream | Chess-Challenge-Server/Messages.cs:108-113 | appends the Int32 time, then the bool |
| Messages.ClientPreferences.ReadFromStream | Chess-Challenge-Server/Messages.cs:115-122 | reads them back, consuming exactly the message |
| Messages.ClientPreferencesRoundTrip | Chess-Challenge-Server/Messages.cs:108-122 | round-trips for every Int32, negative ones included |
| Messages.ClientPreferencesLayout | Chess-Challenge-Server/Messages.cs:108-113 | exactly 5 bytes: the Int32's 4 little-endian bytes, then the bool |
| Messages.NegativeTimeEncoding | Chess-Challenge-Server/Messages.cs:111 | a time of -1 travels as four 0xFF bytes |
| Messages.GameSettings.SerializeIntoStream | Chess-Challenge-Server/Messages.cs:130-135 | appends the Int32 time, then the bool |
| Messages.GameSettings.ReadFromStream | Chess-Challenge-Server/Messages.cs:137-143 | reads them back, consuming exactly the message |
| Messages.GameSettingsRoundTrip | Chess-Challenge-Server/Messages.cs:130-143 | round-trips for every Int32 |
| Messages.GameSettingsLayout | Chess-Challenge-Server/Messages.cs:130-135 | exactly 5 bytes: the Int32, then the bool |
| Messages.IsReady.SerializeIntoStream | Chess-Challenge-Server/Messages.cs:152-156 | appends the bool |
| Messages.IsReady.ReadFromStream | Chess-Challenge-Server/Messages.cs:158-162 | reads it back |
| Messages.IsReadyRoundTrip | Chess-Challenge-Server/Messages.cs:149-163 | exactly 1 byte, and round-trips |
| Messages.GameStart.SerializeIntoStream | Chess-Challenge-Server/Messages.cs:171-175 | appends the Int64 timestamp |
| Messages.GameStart.ReadFromStream | Chess-Challenge-Server/Messages.cs:177-181 | reads it back |
| Messages.GameStartRoundTrip | Chess-Challenge-Server/Messages.cs:166-182 | exactly 8 bytes, and round-trips |
| Messages.MoveMessage.SerializeIntoStream | Chess-Challenge-Server/Messages.cs:191-197 | appends LastMove, MoveName, then Clock |
| Messages.MoveMessage.ReadFromStream | Chess-Challenge-Server/Messages.cs:199-206 | reads them back in that order |
| Messages.MoveMessageRoundTrip | Chess-Challenge-Server/Messages.cs:191-206 | a MoveMessage round-trips |
| Messages.MoveMessageLayout | Chess-Challenge-Server/Messages.cs:191-197 | 1 + prefix length + name length + 8 bytes: the LastMove byte first, the Clock's 8 bytes last |
| Messages.NewGameRequest.SerializeIntoStream | Chess-Challenge-Server/Messages.cs:212-216 | appends the bool |
| Messages.NewGameRequest.ReadFromStream | Chess-Challenge-Server/Messages.cs:218-223 | reads it back |
| Messages.NewGameRequestRoundTrip | Chess-Challenge-Server/Messages.cs:209-224 | exactly 1 byte, and round-trips |
| Messages.Serializable.DecodeSameKind | Chess-Challenge-Server/Messages.cs:24 | a struct's ReadFromStream yields a struct of its own type |
| Messages.Serializable.SerializeIntoStream | Chess-Challenge-Server/Messages.cs:15 | every struct's writer appends its encoding |
| Messages.Serializable.ReadFromStream | Chess-Challenge-Server/Messages.cs:24 | every struct's reader agrees with its decoder |
| Messages.Serializable.SerializeAsArray | Chess-Challenge-Server/Messages.cs:8-13 | the bytes written into a fresh stream are exactly the encoding |
| Messages.Serializable.DeserializeFromArray | Chess-Challenge-Server/Messages.cs:17-22 | reading from a stream over the bytes agrees with the decoder |
| Messages.RoundTrip | Chess-Challenge-Server/Messages.cs:8-224 | every struct decodes from its own encoding followed by any bytes, leaving those bytes |
| Messages.ArrayRoundTrip | Chess-Challenge-Server/Messages.cs:8-22 | DeserializeFromArray(SerializeAsArray(m)) restores m |
| Messages.ReadBack | Chess-Challenge-Server/Messages.cs:41-48 | reading m from a stream whose unread bytes start with m's encoding gives m and leaves the rest unread |
| Messages.SharedStream | Chess-Challenge-Server/Messages.cs:35-43 | two messages written in turn to one stream (writers that leave it open) read back in turn |
| Players.Arrival | Chess-Challenge-Server/Player.cs:22-30 | new Player: it keeps the given session id and user name, has sent nothing, its stopwatch is stopped at zero, it can send exactly when the client is connected with writes left, and its first reply is the client's first |
| Rooms.Registry.constructor | Chess-Challenge-Server/GameServer.cs:9 | the registry holds the ids it is given |
| Rooms.MatchRoom.constructor | Chess-Challenge-Server/MatchRoom.cs:20-24 | a new room has the given id and budget (-1 by default), no players, and is not in a game |
| Rooms.MatchRoom.SetSeat | Chess-Challenge-Server/MatchRoom.cs:283-285 | assigning WhitePlayer or BlackPlayer changes that seat and nothing else |
| Rooms.MatchRoom.SendTo | Chess-Challenge-Server/Player.cs:40-53 | SendMessage to a seat's player completes exactly when its connection takes another message, and then logs the message; when it throws, the player stays seated but no longer reads as live, since its socket reports itself disconnected, and nothing else changes |
| Players.Player.Attempted | Chess-Challenge-Server/Player.cs:40-53 | a send that completes logs the message and uses up one write; one that throws logs nothing and leaves the player no longer live |
| Rooms.MatchRoom.Receive | Chess-Challenge-Server/Player.cs:62-83 | GetNextMessage gives the player's next reply (null when it has none) and consumes it; nothing else changes |
| Rooms.MatchRoom.DisposeSeat | Chess-Challenge-Server/MatchRoom.cs:220-221 | Dispose on a seat's player, then the seat set to null: the seat is empty and the disposed player is appended to the departed log |
| Rooms.MatchRoom.Wait | Chess-Challenge-Server/Player.cs:33-35 | while the room busy-waits, each player's stopwatch accrues the time only if it is running; nothing else changes |
| Rooms.MatchRoom.RoomFull | Chess-Challenge-Server/MatchRoom.cs:16 | true exactly when both seats hold live players |
| Rooms.MatchRoom.TrySetPlayerMoveTime | Chess-Challenge-Server/MatchRoom.cs:26-33 | the class computes SetMoveTime |
| RoomProperties.SetMoveTimeBetweenGames | Chess-Challenge-Server/MatchRoom.cs:26-33 | succeeds exactly when not in a game; the budget is then the new one, otherwise unchanged, and nothing else changes |
| Rooms.MatchRoom.RemovePlayer | Chess-Challenge-Server/MatchRoom.cs:202-264 | the recursive method computes Remove, its recursion ending with the number of occupied seats |
| Rooms.MatchRoom.EvictSeat | Chess-Challenge-Server/MatchRoom.cs:204-230 | one branch of RemovePlayer computes Evict, with the unregistering of an empty room at 259-264 |
| RoomProperties.RemoveFrame | Chess-Challenge-Server/MatchRoom.cs:202-264 | RemovePlayer only empties seats and appends to the departed log; it keeps id, budget, roles and InGame, and touches the registry only to drop this room |
| RoomProperties.RemoveEmptyUnregisters | Chess-Challenge-Server/MatchRoom.cs:259-264 | once both seats are empty the room is out of the registry, even when the call threw |
| RoomProperties.RemoveVacates | Chess-Challenge-Server/MatchRoom.cs:204-248 | the matched seat (Black checked first) ends empty, the number of occupied seats drops, and the player is logged as it was left |
| RoomProperties.RemoveUnmatched | Chess-Challenge-Server/MatchRoom.cs:202-264 | an id neither seat holds changes no seat and no mail |
| RoomProperties.RemoveAcked | Chess-Challenge-Server/MatchRoom.cs:223-256 | the remaining live player Acks PlayerLeft: it stays, sent PlayerLeft, its reply read |
| RoomProperties.RemoveThrows | Chess-Challenge-Server/MatchRoom.cs:250-252 | PlayerLeft cannot be sent: the exception escapes after the matched seat was emptied, the player left behind stays seated but no longer live, and the registry is untouched |
| RoomProperties.RemoveCascade | Chess-Challenge-Server/MatchRoom.cs:253-255 | once PlayerLeft reaches the remaining player, any reply but Ack removes it too: it was sent PlayerLeft, then Shutdown "Connection lost" or "Unknown packet. Expected Ack" if its connection still takes a message (a failed Shutdown send is swallowed); the room ends empty and unregistered |
| Rooms.MatchRoom.TryAddPlayer | Chess-Challenge-Server/MatchRoom.cs:267-394 | the class computes Add, in which a player whose send threw no longer reads as live |
| RoomProperties.AddOccupantUnreachable | Chess-Challenge-Server/MatchRoom.cs:384-388 | when the PlayerJoined to the live occupant (292 or 342) throws, the catch removes the joiner, telling it "Unknown" when it can, sends the occupant no PlayerLeft since it no longer reads as live, and returns false; the occupant stays seated |
| Rooms.MatchRoom.Greet | Chess-Challenge-Server/MatchRoom.cs:287-380 | the introductions compute Introduce |
| Rooms.MatchRoom.RemoveAndReturn | Chess-Challenge-Server/MatchRoom.cs:298-312 | RemovePlayer then return computes Removing |
| RoomProperties.AddFrame | Chess-Challenge-Server/MatchRoom.cs:267-394 | no one is displaced: each seat ends empty, with its occupant, or (the free seat only) with the joiner; id, budget, roles and InGame stay; the registry only loses this room |
| RoomProperties.AddRefused | Chess-Challenge-Server/MatchRoom.cs:269-275 | in a game or with both players live: false, and nothing changes |
| RoomProperties.AddBothTaken | Chess-Challenge-Server/MatchRoom.cs:283-393 | both seats held (one by a stale player): false, and nothing changes |
| RoomProperties.AddSeated | Chess-Challenge-Server/MatchRoom.cs:283-290 | the joiner takes White if empty, else Black; with no live player in the other seat, true and nothing sent |
| RoomProperties.AddRejected | Chess-Challenge-Server/MatchRoom.cs:298-306 | the occupant Rejects: the joiner is removed and the call returns false |
| RoomProperties.AddOccupantRemoved | Chess-Challenge-Server/MatchRoom.cs:308-310 | provided the PlayerLeft to the joiner can be sent (otherwise the catch at 384-388 makes the call return false), the occupant answering neither Ack nor Reject is removed and the call returns true |
| RoomProperties.AddTrueLeavesRoomEmpty | Chess-Challenge-Server/MatchRoom.cs:308-310 | if the joiner then does not Ack PlayerLeft, it is removed too and the room unregistered, yet the call returns true |
| RoomProperties.AddJoinerSilent | Chess-Challenge-Server/MatchRoom.cs:316-327 | the joiner does not Ack the reverse introduction: it is removed and the call returns false |
| RoomProperties.AddWelcomed | Chess-Challenge-Server/MatchRoom.cs:291-331 | both Ack: the joiner is seated, each player was told the other's user name and had its Ack read, and the call returns true |
| Rooms.MatchRoom.TryStartNewGame | Chess-Challenge-Server/MatchRoom.cs:34-172 | the class computes StartGame, in which a player whose send threw no longer reads as live |
| Rooms.MatchRoom.PlayRound | Chess-Challenge-Server/MatchRoom.cs:39-136 | the try body computes Play and reports its exception |
| Rooms.MatchRoom.GetPlayersReady | Chess-Challenge-Server/MatchRoom.cs:43-82 | the handshake computes Handshake |
| Rooms.MatchRoom.RelayMoves | Chess-Challenge-Server/MatchRoom.cs:85-131 | the nested loops compute Relay |
| Rooms.MatchRoom.AwaitMover | Chess-Challenge-Server/MatchRoom.cs:87-101 | the inner wait loop ends with a message pending or with the timeout, following Relay |
| Rooms.MatchRoom.HandleMessage | Chess-Challenge-Server/MatchRoom.cs:103-130 | the switch ends the loop or shrinks what is pending, following Relay |
| Rooms.MatchRoom.TimeOutMover | Chess-Challenge-Server/MatchRoom.cs:89-99 | computes Expire |
| Rooms.MatchRoom.RemoveAfterShutdown | Chess-Challenge-Server/MatchRoom.cs:109-113 | computes AfterShutdown |
| RoomProperties.AfterShutdownMail | Chess-Challenge-Server/MatchRoom.cs:111-114 | after the mover's Shutdown the opponent leaves first, told "Opponent connection lost" if that can be sent; the first removal sends a live mover PlayerLeft and, unless it Acks, the cascade's Shutdown (while a write remains), and the second removal sends it nothing; both seats end empty and the room unregistered, or, when PlayerLeft cannot be sent, the exception leaves the mover seated and no longer live |
| Rooms.MatchRoom.RemoveAfterGameOver | Chess-Challenge-Server/MatchRoom.cs:132-135 | computes Conclude |
| Rooms.MatchRoom.DestroyRoom | Chess-Challenge-Server/MatchRoom.cs:138-165 | computes Destroy |
| RoomProperties.DestroyAfterFailedSend | Chess-Challenge-Server/MatchRoom.cs:144-150 | after a send failed, leaving Black no longer live (or White, with Black still reachable), the catch's two removals complete and empty both seats, and the room leaves the registry |
| RoomProperties.StartFrame | Chess-Challenge-Server/MatchRoom.cs:34-172 | nothing happens unless both players are live; otherwise InGame is false afterwards, id and budget stay, no one is seated, and the registry only loses this room |
| RoomProperties.HandshakeReady | Chess-Challenge-Server/MatchRoom.cs:43-82 | the loop is reached exactly when both can be sent GetReady and GameStart and both answer IsReady; then both were sent GetReady (colour, budget, position) and GameStart, White's clock runs, and White is to move |
| RoomProperties.HandshakeWhiteUnready | Chess-Challenge-Server/MatchRoom.cs:57-64 | White not answering IsReady is removed, sent Shutdown "Unresponsive client" only if it replied with something other than Shutdown, and no game starts |
| RoomProperties.HandshakeBlackUnready | Chess-Challenge-Server/MatchRoom.cs:66-73 | the same for Black |
| RoomProperties.RelayKeeps | Chess-Challenge-Server/MatchRoom.cs:85-131 | the loop keeps the same two players and everything but their mail, clocks and the roles; once the opponent's clock is stopped only the mover's runs; a Shutdown names mover and opponent |
| RoomProperties.RelayExpires | Chess-Challenge-Server/MatchRoom.cs:87-100 | a timeout ends the game only when the mover has nothing pending and its clock has reached the budget; the mover was last sent TimeOut(true), its opponent TimeOut(false) |
| RoomProperties.RelayOutOfTime | Chess-Challenge-Server/MatchRoom.cs:87-100 | with nothing pending and the clock at or past the budget (always so for -1), the game times out whatever happens next |
| RoomProperties.RelayMove | Chess-Challenge-Server/MatchRoom.cs:115-127 | a move: the mover's clock stops, the opponent is sent the move with the mover's and its own elapsed times, its clock starts, and it is to move |
| RoomProperties.RelayEnds | Chess-Challenge-Server/MatchRoom.cs:105-113 | GameOver ends the loop; Shutdown ends it naming mover and opponent; either is read and nothing is sent |
| RoomProperties.RelayDrops | Chess-Challenge-Server/MatchRoom.cs:103-130 | any other message is read and dropped, the roles unchanged |
| RoomProperties.ConcludeNullReference | Chess-Challenge-Server/MatchRoom.cs:132-135 | Black not Acking White's PlayerLeft is cascaded out, and the second "Game Over" removal dereferences the empty Black seat: a NullReferenceException, with the room already empty and unregistered |
| RoomProperties.DestroyFrame | Chess-Challenge-Server/MatchRoom.cs:138-165 | the catch only removes or disposes the room's own players and keeps id and budget |
| RoomProperties.DestroyUnregisters | Chess-Challenge-Server/MatchRoom.cs:144-163 | with distinct ids other than "0", the catch always leaves the room out of the registry |
| RoomProperties.GameEndsRoom | Chess-Challenge-Server/MatchRoom.cs:34-172 | once both players would answer IsReady, the room leaves the registry however the game ends: by GameOver, timeout, Shutdown or exception, including a GetReady or GameStart that cannot be sent |

## Left out

- Player.cs's concurrency: the background reading task, the send lock and
  the cancellation. A player is a scripted supply of replies.
- Player.cs's single-message mailbox. `SendMessage` discards a message that
  arrived but was not yet read, and this is not modelled. Replies are a
  script that sending leaves alone. Ping frames (skipped by the reader) do
  not appear.
- The wall-clock stopwatch. Time passes only through `Tick` events and
  through the final run to the budget. Elapsed time is unbounded; the
  64-bit overflow of `TimeElapsedMillis` is not modelled.
- The socket probes of `IsWhitePlayerLive`/`IsBlackPlayerLive`. They are
  the `live` flag. `Dispose` clears it, and so does a send that throws,
  since `Client.Connected` reports the state of the last write. A socket
  that drops without a failed write is a client that was not live to
  begin with.
- `new Player(client, …)` throwing on a client without a stream. It is the
  `Client.live` flag. For such a client `TryAddPlayer` goes straight to
  its catch.
- The exact exception types:
  - a failed send is reported as `System.IO.IOException`;
  - the null dereference as `System.NullReferenceException`.
  These are the texts of the catch's "Error …" reason.
- Console logging throughout.
- GameServer.cs (the listener, the accept callback, session ids). Its
  calls do not match MatchRoom's signatures. Only `ActiveRooms` is kept,
  as `Registry`.
- `StartPingThread`. Its call sites are commented out.
- ISerilizableMessage.cs and Constants.cs.
- The `MoveMessage` the room sends. MatchRoom.cs sets
  OpponentClockElapsed and YourClockElapsed, which the struct in
  Messages.cs does not have. So the codec models the struct's layout, and
  the room models an abstract move carrying the fields the room sets.
- UTF-8 transcoding. A string is its UTF-8 bytes.
- Where the stream is left after a failed read. .NET leaves it
  unspecified, and the readers promise nothing about it.
- The fields a failed `ReadFromStream` had already read. In the source
  they stay assigned when a later read throws (Messages.cs:45-47, 97-98,
  203-205); the model returns only the failure.
- Distinct session ids. AddRejected, AddOccupantRemoved,
  AddTrueLeavesRoomEmpty, AddJoinerSilent and AddWelcomed (through
  `Meeting`), HandshakeWhiteUnready and ConcludeNullReference assume the
  two players' session ids differ. GameEndsRoom and DestroyUnregisters
  (through `Parted`) assume as well that neither is "0", the id the catch
  passes for an empty seat. The ids are Guids that GameServer.cs
  generates; the room itself never checks them.
