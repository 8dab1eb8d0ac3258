/**
 The relay's event handlers as transitions of one value: the `rooms`
 registry, every connection's session record, and the outbox of sends made
 so far (each `ws.send` appends one `(recipient, message)` pair). Each
 handler runs to completion without interleaving, so each is one function
 from the state before to the state after.
 */
module Handlers {

  import opened Protocol
  import opened RoomCode
  import opened ClientSet
  import opened Broadcast

  datatype RelayState = RelayState(
    rooms: map<Code, Room>,
    sessions: map<ConnId, Session>,
    outbox: seq<(ConnId, Outbound)>)

  /** Every client has a session whose username is set. */
  predicate Named(clients: seq<ConnId>, sessions: map<ConnId, Session>) {
    forall c :: c in clients ==> c in sessions && sessions[c].username.Some?
  }

  /** A live room: clients form a set, the host is one of them (so there is
      at least one), and every client has a username to list. */
  predicate RoomOk(room: Room, sessions: map<ConnId, Session>) {
    NoDup(room.clients) && room.host in room.clients && Named(room.clients, sessions)
  }

  /** The invariant every reachable state keeps: rooms are keyed by generated
      codes and each room is well formed. */
  predicate Valid(st: RelayState) {
    forall code :: code in st.rooms ==> IsRoomCode(code) && RoomOk(st.rooms[code], st.sessions)
  }

  const Empty := RelayState(map[], map[], [])

  /** Sends are never withdrawn: `before`'s outbox is a prefix of `after`'s. */
  predicate Extends(before: RelayState, after: RelayState) {
    before.outbox <= after.outbox
  }

  /** `getConnectedUsers`: the clients' usernames in the set's order. */
  function ConnectedUsers(clients: seq<ConnId>, sessions: map<ConnId, Session>): (users: seq<string>)
    requires Named(clients, sessions)
    ensures |users| == |clients|
    ensures forall i :: 0 <= i < |clients| ==> users[i] == sessions[clients[i]].username.value
  {
    if clients == [] then []
    else [sessions[clients[0]].username.value] + ConnectedUsers(clients[1..], sessions)
  }

  /** `ws.send`: one message to one connection, after every earlier send. */
  function Send(st: RelayState, c: ConnId, msg: Outbound): (r: RelayState)
    ensures r.rooms == st.rooms && r.sessions == st.sessions
    ensures Extends(st, r) && |r.outbox| == |st.outbox| + 1
    ensures r.outbox[|st.outbox|] == (c, msg)
  {
    st.(outbox := st.outbox + [(c, msg)])
  }

  /** `broadcastToRoom(code, msg, exclude)`: looks the room up again and sends
      to its clients except `exclude`; nothing when the code is absent. */
  function BroadcastToRoom(st: RelayState, code: Code, msg: Outbound, exclude: Option<ConnId>): (r: RelayState)
    ensures r.rooms == st.rooms && r.sessions == st.sessions
    ensures code !in st.rooms ==> r == st
    ensures Extends(st, r)
  {
    if code in st.rooms then st.(outbox := st.outbox + Fanout(st.rooms[code].clients, msg, exclude))
    else st
  }

  /** The room the session's `roomCode` names, if that code is in `rooms`. */
  function CurrentRoom(st: RelayState, c: ConnId): (code: Option<Code>)
    requires c in st.sessions
    ensures code.Some? ==> code.value in st.rooms && st.sessions[c].roomCode == code
    ensures code.None? ==> st.sessions[c].roomCode.None? || st.sessions[c].roomCode.value !in st.rooms
  {
    var rc := st.sessions[c].roomCode;
    if rc.Some? && rc.value in st.rooms then rc else None
  }

  /** A new connection: both closure variables start as `null`. */
  function Connect(st: RelayState, c: ConnId): (r: RelayState)
    requires Valid(st) && c !in st.sessions
    ensures Valid(r)
    ensures r.rooms == st.rooms && r.outbox == st.outbox
    ensures c in r.sessions && r.sessions[c].roomCode.None? && r.sessions[c].username.None?
    ensures forall d :: d in st.sessions ==> d in r.sessions && r.sessions[d] == st.sessions[d]
  {
    st.(sessions := st.sessions[c := Session(None, None)])
  }

  /** Setting a connection's session keeps every room's clients named. */
  lemma RebindKeepsNamed(st: RelayState, c: ConnId, session: Session)
    requires Valid(st) && session.username.Some?
    ensures Valid(st.(sessions := st.sessions[c := session]))
  {
    var sessions := st.sessions[c := session];
    forall code | code in st.rooms
      ensures Named(st.rooms[code].clients, sessions)
    {
      assert Named(st.rooms[code].clients, st.sessions);
    }
  }

  /** Registering a well-formed room under a generated code keeps the invariant. */
  lemma PutRoomKeepsValid(st: RelayState, code: Code, room: Room)
    requires Valid(st) && IsRoomCode(code) && RoomOk(room, st.sessions)
    ensures Valid(st.(rooms := st.rooms[code := room]))
  {
  }

  /** Adding a named connection to a room keeps it well formed. */
  lemma AddKeepsRoomOk(room: Room, c: ConnId, sessions: map<ConnId, Session>)
    requires RoomOk(room, sessions) && c in sessions && sessions[c].username.Some?
    ensures RoomOk(room.(clients := Add(room.clients, c)), sessions)
  {
  }

  /** Removing a connection other than the host keeps a room well formed. */
  lemma DeleteKeepsRoomOk(room: Room, c: ConnId, sessions: map<ConnId, Session>)
    requires RoomOk(room, sessions) && room.host != c
    ensures RoomOk(room.(clients := Delete(room.clients, c)), sessions)
  {
  }

  /** `create`: binds the session to a fresh code, registers a room with the
      sender as host and only client (replacing any room with that code),
      and answers `created`. */
  function OnCreate(st: RelayState, c: ConnId, username: string, entropy: seq<Byte>): (r: RelayState)
    requires Valid(st) && c in st.sessions && |entropy| == 3
    ensures Valid(r)
    ensures r.outbox == st.outbox + [(c, Created(GenerateRoomCode(entropy)))]
  {
    var code := GenerateRoomCode(entropy);
    var st1 := st.(sessions := st.sessions[c := Session(Some(code), Some(username))]);
    RebindKeepsNamed(st, c, Session(Some(code), Some(username)));
    var st2 := st1.(rooms := st1.rooms[code := Room(c, [c], None, InitialPlayback)]);
    assert RoomOk(st2.rooms[code], st2.sessions);
    Send(st2, c, Created(code))
  }

  /** `join`: binds the session to the requested code whether or not it
      exists; for a known room, admits the sender. */
  function OnJoin(st: RelayState, c: ConnId, code: Code, username: string): (r: RelayState)
    requires Valid(st) && c in st.sessions
    ensures Valid(r)
    ensures Extends(st, r)
    ensures r.sessions == st.sessions[c := Session(Some(code), Some(username))]
    ensures code in st.rooms ==> code in r.rooms && c in r.rooms[code].clients
  {
    var st1 := st.(sessions := st.sessions[c := Session(Some(code), Some(username))]);
    RebindKeepsNamed(st, c, Session(Some(code), Some(username)));
    if code in st1.rooms then Admit(st1, c, code) else st1
  }

  /** The `join` case for a known room: adds the sender to the clients, sends
      `userList` to every client and then `joined` to the sender. */
  function Admit(st: RelayState, c: ConnId, code: Code): (r: RelayState)
    requires Valid(st) && code in st.rooms && c in st.sessions && st.sessions[c].username.Some?
    ensures Valid(r)
    ensures Extends(st, r)
    ensures r.sessions == st.sessions
    ensures code in r.rooms && c in r.rooms[code].clients
  {
    var room := st.rooms[code];
    var clients := Add(room.clients, c);
    AddKeepsRoomOk(room, c, st.sessions);
    PutRoomKeepsValid(st, code, room.(clients := clients));
    var st2 := st.(rooms := st.rooms[code := room.(clients := clients)]);
    var st3 := BroadcastToRoom(st2, code, UserList(ConnectedUsers(clients, st2.sessions)), None);
    Send(st3, c, Joined(room.filename, room.state))
  }

  /** `videoSelected`: in the session's room, if it still exists, records the
      file and tells every other client. */
  function OnVideoSelected(st: RelayState, c: ConnId, filename: string): (r: RelayState)
    requires Valid(st) && c in st.sessions
    ensures Valid(r)
    ensures Extends(st, r)
    ensures r.sessions == st.sessions && r.rooms.Keys == st.rooms.Keys
    ensures CurrentRoom(st, c).None? ==> r == st
  {
    match CurrentRoom(st, c)
    case Some(code) =>
      var room := st.rooms[code];
      var st1 := st.(rooms := st.rooms[code := room.(filename := Some(filename))]);
      BroadcastToRoom(st1, code, VideoUpdate(filename), Some(c))
    case None => st
  }

  /** `videoControl`: in the session's room, if it still exists, replaces the
      playback snapshot and forwards `{action, time}` to every other client. */
  function OnVideoControl(st: RelayState, c: ConnId, action: string, time: int): (r: RelayState)
    requires Valid(st) && c in st.sessions
    ensures Valid(r)
    ensures Extends(st, r)
    ensures r.sessions == st.sessions && r.rooms.Keys == st.rooms.Keys
    ensures CurrentRoom(st, c).None? ==> r == st
  {
    match CurrentRoom(st, c)
    case Some(code) =>
      var room := st.rooms[code];
      var st1 := st.(rooms := st.rooms[code := room.(state := ControlPlayback(action, time))]);
      BroadcastToRoom(st1, code, ControlForward(action, time), Some(c))
    case None => st
  }

  /** The `message` handler: dispatch on the type tag; an unknown tag
      matches no case and does nothing. `entropy` is what the random source
      yields for a `create`. */
  function OnMessage(st: RelayState, c: ConnId, m: Inbound, entropy: seq<Byte>): (r: RelayState)
    requires Valid(st) && c in st.sessions
    requires m.Create? ==> |entropy| == 3
    ensures Valid(r)
    ensures Extends(st, r)
    ensures m.Unknown? ==> r == st
  {
    match m
    case Create(username) => OnCreate(st, c, username, entropy)
    case Join(code, username) => OnJoin(st, c, code, username)
    case VideoSelected(filename) => OnVideoSelected(st, c, filename)
    case VideoControl(action, time) => OnVideoControl(st, c, action, time)
    case Unknown(_) => st
  }

  /** Whether the `close` handler finds a room to leave: the session's code is
      set, is not the empty string, and is still registered. The test for the
      empty string never matters in a valid state, since registered codes
      have six digits: the guard is the same as `CurrentRoom`'s. */
  predicate Departs(st: RelayState, c: ConnId): (d: bool)
    requires c in st.sessions
    ensures Valid(st) ==> (d <==> CurrentRoom(st, c).Some?)
  {
    var rc := st.sessions[c].roomCode;
    assert Valid(st) && rc.Some? && rc.value in st.rooms ==> IsRoomCode(rc.value);
    rc.Some? && rc.value != "" && rc.value in st.rooms
  }

  /** The `close` handler: leaves the room; an emptied room is deleted; a
      departing host deletes the room and only then broadcasts `hostLeft`
      (to a room that is gone); otherwise the rest get a fresh `userList`. */
  function OnClose(st: RelayState, c: ConnId): (r: RelayState)
    requires Valid(st) && c in st.sessions
    ensures Valid(r)
    ensures Extends(st, r)
    ensures r.sessions == st.sessions
    ensures !Departs(st, c) ==> r == st
  {
    if Departs(st, c) then
      var code := st.sessions[c].roomCode.value;
      var room := st.rooms[code];
      var remaining := Delete(room.clients, c);
      var st1 := st.(rooms := st.rooms[code := room.(clients := remaining)]);
      if |remaining| == 0 then
        st1.(rooms := st1.rooms - {code})
      else if room.host == c then
        BroadcastToRoom(st1.(rooms := st1.rooms - {code}), code, HostLeft, None)
      else
        DeleteKeepsRoomOk(room, c, st.sessions);
        PutRoomKeepsValid(st, code, room.(clients := remaining));
        BroadcastToRoom(st1, code, UserList(ConnectedUsers(remaining, st1.sessions)), None)
    else
      st
  }
}
