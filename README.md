# NetSync room relay

A Dafny model of the NetSync relay server (`server.js`): a WebSocket process
that keeps a registry of watch-party rooms and relays messages between the
connections in a room. A connection creates a room and receives a six-digit
hexadecimal room code, or joins an existing room by its code. The room
remembers:

- its host;
- its clients, in insertion order;
- the file selected for the room;
- the last playback snapshot: whether it is playing, and at what time.

`videoSelected` and `videoControl` update that record and are forwarded to
every other client of the room. Closing a connection removes it from its
room:

- an emptied room is deleted;
- a departing host deletes the room;
- otherwise the remaining clients receive a fresh user list.

The model has two layers:

- `Handlers` describes every event handler as a function from one
  `RelayState` to the next. The state holds the `rooms` registry, each
  connection's closure variables (`roomCode`, `username`) and the outbox of
  every `send` made so far.
- `Server.Relay` is the process as the source runs it. It is a class whose
  fields are the registry, the sessions and the outbox. Each handler method
  updates those fields in place and is proved to yield exactly the state
  the matching `Handlers` function gives. `broadcastToRoom` is a loop over
  the room's clients, proved against `Broadcast.Fanout`.

Supporting modules:

- `Protocol`: the message and record types.
- `RoomCode`: the hex rendering of the random bytes and its inverse.
- `ClientSet`: a JavaScript `Set` as an ordered sequence without duplicates.
- `Properties`: what each handler does, and what sequences of events do.

All handlers keep one invariant, `Handlers.Valid`:

- every registered code has six lowercase hex digits;
- a room's clients have no duplicates and include the host;
- every client has a username.

## Model

| member | source | states |
|---|---|---|
| RoomCode.GenerateRoomCode | server.js:18-20 | the code of three random bytes is six lowercase hex digits |
| RoomCode.HexByte | server.js:19 | one byte renders as exactly two lowercase hex digits |
| RoomCode.Hex | server.js:19 | `toString('hex')`: n bytes render as 2n lowercase hex digits |
| RoomCode.UnhexHex | server.js:19 | parsing the hex rendering of any bytes gives those bytes back (two digits per byte, high nibble first) |
| RoomCode.HexUnhex | server.js:19 | every string that parses as hex is the rendering of what it parses to |
| RoomCode.GenerateRoomCodeInjective | server.js:18-20 | distinct random bytes give distinct room codes |
| RoomCode.EveryRoomCodeIsGenerated | server.js:18-20 | every six-digit lowercase hex string is the code of some three bytes, so the generator covers 16^6 codes and two rooms can draw the same one |
| RoomCode.ByteValueOfHexByte | server.js:19 | the two digits of one byte parse back to that byte |
| RoomCode.ByteValue | server.js:19 | two characters parse as a byte exactly when both are hex digits, and the byte renders back to those two characters |
| RoomCode.DigitValue | server.js:19 | a character has a digit value exactly when it is a lowercase hex digit, and the value renders back to it |
| ClientSet.Add | server.js:48 | `clients.add(ws)`: membership gains the connection; an existing member changes nothing; otherwise it is appended at the end and the old order is kept; no duplicates arise |
| ClientSet.Delete | server.js:74 | `clients.delete(ws)`: membership loses exactly the connection and the size drops by one when it was a member |
| ClientSet.DeleteSplices | server.js:74 | deleting the k-th client closes the gap and keeps the others in order |
| Handlers.ConnectedUsers | server.js:23-25 | `getConnectedUsers`: one username per client, position by position in set order |
| Handlers.BroadcastToRoom | server.js:88-97 | a broadcast changes neither rooms nor sessions, only appends sends, and sends nothing when the code is not registered |
| Broadcast.Fanout | server.js:91-95 | the `forEach` over the clients makes at most one send per client |
| Broadcast.FanoutExactlyOnce | server.js:91-95 | every client other than `exclude` receives the message exactly once; the excluded connection and non-members receive none |
| Broadcast.FanoutSendsOnlyMsg | server.js:91-95 | every send of a broadcast carries the message and goes to a client other than `exclude` |
| Broadcast.FanoutToAll | server.js:88-97 | with no exclusion (`exclude = null`), the broadcast is one send per client in the clients' order |
| Broadcast.FanoutSkipsExcluded | server.js:91-95 | skipping `exclude` sends the same as a broadcast with no exclusion to the clients with `exclude` deleted |
| Broadcast.FanoutInOrder | server.js:91-95 | with `exclude` set, the broadcast is one send per other client, in the clients' order |
| Broadcast.FanoutAppend | server.js:91-95 | broadcasting to two runs of clients is broadcasting to the first run, then to the second |
| ClientSet.DeleteAppend | server.js:74 | deleting a connection from two runs of clients deletes it from each run |
| Server.Relay.BroadcastToRoom | server.js:88-97 | the loop appends exactly `Fanout` of the room's clients at call time, and nothing for an unregistered code |
| Properties.BroadcastReachesEachOnce | server.js:88-97 | on the relay state: a broadcast to a live room delivers only the message, once to each client other than `exclude` |
| Handlers.Send | server.js:40 | `ws.send` appends exactly one send, to that connection with that message, after every earlier send, and changes no room or session |
| Server.Relay.Send | server.js:93 | the in-place `send` appends the one message to the outbox and touches no other field |
| Handlers.Connect | server.js:28-30 | a new connection starts with `roomCode` and `username` null and every other session unchanged; the invariant holds |
| Server.Relay.Connect | server.js:28-30 | the in-place `connection` step is `Handlers.Connect` and keeps the invariant |
| Server.Relay.constructor | server.js:15 | the process starts with an empty registry, no sessions and no sends |
| Handlers.OnCreate | server.js:35-41 | `create` keeps the invariant and its only send is `created` with the generated code to the sender |
| Properties.CreateRegistersRoom | server.js:35-41 | `create` binds the session to the new code and username, registers the sender as host and sole client with no file and a paused snapshot at 0, replacing any room with that code |
| Server.Relay.HandleCreate | server.js:35-41 | the in-place `create` is `Handlers.OnCreate` and keeps the invariant |
| Handlers.OnJoin | server.js:42-52 | `join` keeps the invariant, binds the session to the given code and username whether or not the room exists, and for a known code puts the sender among the clients |
| Handlers.Admit | server.js:46-51 | joining a known room keeps the invariant and the sessions, and leaves the joiner among the clients |
| Properties.JoinUnknownCodeIsSilent | server.js:42-52 | `join` with an unknown code changes no room and sends nothing, yet the session keeps that code |
| Properties.JoinKnownCode | server.js:46-51 | `join` to a known room adds the sender only if not yet a client, then sends `userList` (every username in set order) to each client, the joiner included, in order, and last sends `joined` with the room's file and snapshot to the joiner |
| Properties.JoinListsJoinerName | server.js:44-49 | the `userList` sent on a join lists the joiner under the username it just gave |
| Server.Relay.HandleJoin | server.js:42-52 | the in-place `join` is `Handlers.OnJoin` and keeps the invariant |
| Handlers.OnVideoSelected | server.js:53-59 | `videoSelected` keeps the invariant, the sessions and the set of codes, and does nothing when the session's room is not registered |
| Properties.VideoSelectedReachesOthers | server.js:53-59 | in a live room, `videoSelected` records the file and nothing else, and sends `videoUpdate` once to each client except the sender |
| Server.Relay.HandleVideoSelected | server.js:53-59 | the in-place `videoSelected` is `Handlers.OnVideoSelected` and keeps the invariant |
| Handlers.OnVideoControl | server.js:60-66 | `videoControl` keeps the invariant, the sessions and the set of codes, and does nothing when the session's room is not registered |
| Properties.VideoControlReachesOthers | server.js:60-66 | in a live room, `videoControl` replaces the snapshot with (action is "play", time) and forwards `{action, time}` once to each client except the sender |
| Properties.OnlyPlayPlays | server.js:63 | any action other than "play" (including "pause") leaves the room not playing |
| Properties.RepeatedControlIsForwardedTwice | server.js:60-66 | the same control sent twice in a row reaches each other client twice, and the snapshot holds the last one |
| Server.Relay.HandleVideoControl | server.js:60-66 | the in-place `videoControl` is `Handlers.OnVideoControl` and keeps the invariant |
| Properties.StaleCodeIsInert | server.js:53-72 | a session holding an unregistered code makes `videoSelected`, `videoControl` and `close` do nothing |
| Handlers.OnMessage | server.js:32-68 | each message keeps the invariant and only appends sends; an unknown type does nothing |
| Server.Relay.OnMessage | server.js:34-67 | the in-place dispatch is `Handlers.OnMessage` and keeps the invariant |
| Handlers.OnClose | server.js:71-84 | `close` keeps the invariant and the sessions, only appends sends, and does nothing unless the session's code is set and registered |
| Properties.LastClientClosingDeletesRoom | server.js:74-76 | the sole client closing deletes the room and sends nothing |
| Properties.HostClosingNotifiesNobody | server.js:77-79 | the host closing deletes the room before `broadcastToRoom` looks it up, so no one receives `hostLeft` |
| Properties.MemberClosingRefreshesList | server.js:80-82 | a non-host closing leaves the room registered without that connection and with the host; each remaining client, in order, receives the list of remaining usernames |
| Properties.JoinAfterHostClosedIsSilent | server.js:77-79 | after the host has closed, a `join` with that code finds nothing and sends nothing |
| Handlers.Departs | server.js:72 | the `close` guard (code set, non-empty and registered); in every valid state it holds exactly when the session's code names a registered room, so the truthiness test never changes the outcome |
| Server.Relay.OnClose | server.js:71-84 | the in-place `close` is `Handlers.OnClose` and keeps the invariant |

## Left out

- The HTTP server, its fixed response and `listen` on port 3000 (lines 5-12, 99-102) are left out: they are I/O with no state of the relay.
- JSON parsing and serialisation are left out. Inbound messages arrive already decoded as `Protocol.Inbound`, and a `type` the switch does not know becomes `Unknown`. A message that fails to parse (it throws in the source) is not modelled.
- The field values of a message are taken as typed. `username`, `filename` and `action` are strings, and `time` is an unbounded integer copied through unchanged. The source accepts any JSON value there, including a missing one (`undefined`), and a fractional `time`.
- `crypto.randomBytes(3)` is replaced by a parameter: the caller passes the three bytes.
- `ws.send` appends a `(connection, message)` pair to an outbox. Socket `readyState`, buffering and delivery failures are left out.
- Connections are identities (`ConnId`). Handlers run one at a time, to completion, as on Node's event loop, so there is no interleaving to model.
- `ws.username` and the closure variable `username` are always assigned together, so the model keeps one `username` per session.
- Every handler requires the invariant `Handlers.Valid`, which holds from the empty state and is kept by every handler. Every handler other than `Connect` also requires that the event comes from an accepted connection.
- The code behaves as follows, which a reader of the protocol might not expect; the model keeps each behaviour:
  - control messages are not throttled;
  - `playing` is true only for the action "play";
  - a forwarded control carries only `action` and `time`;
  - `create` and `join` are accepted from a connection already in a room, which then stays among its old room's clients;
  - `hostLeft` reaches nobody, because the room is deleted before the broadcast looks it up.
